/**
 The strings under which the service, the worker and the idempotency helper
 store things in Redis, and the two facts everything else relies on: no two
 different keys are written alike, and an invalidation pattern selects exactly the
 family it names. One key has two users: POST /refresh keeps its marker and
 POST /watchlist its response under the same Idempotency(header).
 */
module CacheKeys {

  /** Every kind of thing the repository's own code names in Redis; the rate-limit library adds keys of its own. */
  datatype Key =
    | List(page: int, perPage: int, sortBy: string)
    | Detail(uuid: Uuid)
    | DetailAlias(externalId: string)
    | History(coin: string, days: int)
    | TopMovers(limit: int)
    | Idempotency(header: string)
    | Insight(coinId: string)
    | WorkerLock
    | Lock(inner: Key)

  predicate IsUuidChar(c: char) {
    '0' <= c <= '9' || 'a' <= c <= 'f' || c == '-'
  }

  predicate IsUuid(s: string) {
    |s| == 36 && forall i :: 0 <= i < |s| ==> IsUuidChar(s[i])
  }

  /** str(uuid.UUID): 36 lower-case hexadecimal digits and dashes. */
  type Uuid = s: string | IsUuid(s) witness seq(36, i => '0')

  const LIST_PREFIX := "coins:list:"
  const DETAIL_PREFIX := "coins:detail:"
  const ALIAS_PREFIX := "coins:detail:ext:"
  const HISTORY_PREFIX := "coins:history:"
  const MOVERS_PREFIX := "coins:top_movers:"
  const IDEMPOTENCY_PREFIX := "idempotency:"
  const INSIGHT_PREFIX := "insight:"
  const LOCK_PREFIX := "lock:"
  const WORKER_LOCK := "worker:refresh:lock"

  function Digit(n: nat): char
    requires n < 10
  {
    '0' + n as char
  }

  /** str(n) for a natural number. */
  function Decimal(n: nat): string {
    if n < 10 then [Digit(n)] else Decimal(n / 10) + [Digit(n % 10)]
  }

  /** str(n) for any int. */
  function Number(n: int): string {
    if n < 0 then "-" + Decimal(-n) else Decimal(n)
  }

  function Render(k: Key): string {
    match k
    case List(page, perPage, sortBy) =>
      LIST_PREFIX + (Number(page) + ":" + (Number(perPage) + ":" + sortBy))
    case Detail(uuid) => DETAIL_PREFIX + uuid
    case DetailAlias(externalId) => ALIAS_PREFIX + externalId
    case History(coin, days) => HISTORY_PREFIX + (coin + ":" + Number(days))
    case TopMovers(limit) => MOVERS_PREFIX + Number(limit)
    case Idempotency(header) => IDEMPOTENCY_PREFIX + header
    case Insight(coinId) => INSIGHT_PREFIX + coinId
    case WorkerLock => WORKER_LOCK
    case Lock(inner) => LOCK_PREFIX + Render(inner)
  }

  /** The glob `prefix*`: none of the prefixes in use holds a glob metacharacter. */
  predicate Matches(prefix: string, key: string) {
    prefix <= key
  }

  // ---------------------------------------------------------------- numbers

  predicate ColonFree(s: string) {
    forall i :: 0 <= i < |s| ==> s[i] != ':'
  }

  const FAMILIES := {LIST_PREFIX, DETAIL_PREFIX, HISTORY_PREFIX, MOVERS_PREFIX, IDEMPOTENCY_PREFIX, INSIGHT_PREFIX,
    WORKER_LOCK, LOCK_PREFIX}

  predicate Digits(s: string) {
    |s| > 0 && forall i :: 0 <= i < |s| ==> '0' <= s[i] <= '9'
  }

  lemma {:induction false} DecimalDigits(n: nat)
    ensures Digits(Decimal(n))
  {
    if n >= 10 {
      DecimalDigits(n / 10);
    }
  }

  /** int(s) for a string of digits. */
  function Parsed(s: string): int {
    if s == [] then 0 else 10 * Parsed(s[..|s| - 1]) + (s[|s| - 1] as int - '0' as int)
  }

  lemma {:induction false} DecimalReadsBack(n: nat)
    ensures Parsed(Decimal(n)) == n
  {
    if n < 10 {
      assert [Digit(n)][..0] == [];
    } else {
      DecimalReadsBack(n / 10);
      assert Decimal(n)[..|Decimal(n)| - 1] == Decimal(n / 10);
    }
  }

  lemma DecimalInjective(m: nat, n: nat)
    requires Decimal(m) == Decimal(n)
    ensures m == n
  {
    DecimalReadsBack(m);
    DecimalReadsBack(n);
  }

  lemma NumberColonFree(n: int)
    ensures ColonFree(Number(n))
  {
    if n < 0 {
      DecimalDigits(-n);
    } else {
      DecimalDigits(n);
    }
  }

  lemma NumberSign(n: int)
    ensures Number(n) != [] && (Number(n)[0] == '-' <==> n < 0)
  {
    DecimalDigits(if n < 0 then -n else n);
  }

  lemma NumberInjective(m: int, n: int)
    requires Number(m) == Number(n)
    ensures m == n
  {
    NumberSign(m);
    NumberSign(n);
    if m < 0 {
      DropPrefix("-", Decimal(-m), Decimal(-n));
      DecimalInjective(-m, -n);
    } else {
      DecimalInjective(m, n);
    }
  }

  // ----------------------------------------------------------------- strings

  lemma SplitFirst(a: string, x: string, b: string, y: string)
    requires ColonFree(a) && ColonFree(b)
    requires a + ":" + x == b + ":" + y
    ensures a == b && x == y
  {
    var s, t := a + ":" + x, b + ":" + y;
    assert s[|a|] == ':' && t[|b|] == ':';
    assert forall i :: 0 <= i < |a| ==> s[i] == a[i] && s[i] != ':';
    assert forall i :: 0 <= i < |b| ==> t[i] == b[i] && t[i] != ':';
    assert a == s[..|a|] && b == t[..|b|] && x == s[|a| + 1..] && y == t[|b| + 1..];
  }

  lemma SplitLast(a: string, x: string, b: string, y: string)
    requires ColonFree(x) && ColonFree(y)
    requires a + ":" + x == b + ":" + y
    ensures a == b && x == y
  {
    var s, t := a + ":" + x, b + ":" + y;
    assert s[|a|] == ':' && t[|b|] == ':';
    assert forall i :: |a| < i < |s| ==> s[i] == x[i - |a| - 1] && s[i] != ':';
    assert forall i :: |b| < i < |t| ==> t[i] == y[i - |b| - 1] && t[i] != ':';
    assert a == s[..|a|] && b == t[..|b|] && x == s[|a| + 1..] && y == t[|b| + 1..];
  }

  lemma DropPrefix(p: string, x: string, y: string)
    requires p + x == p + y
    ensures x == y
  {
    assert x == (p + x)[|p|..] && y == (p + y)[|p|..];
  }

  // -------------------------------------------------------------- the schema

  /** The literal that starts a rendered key. */
  function Family(k: Key): string {
    match k
    case List(_, _, _) => LIST_PREFIX
    case Detail(_) => DETAIL_PREFIX
    case DetailAlias(_) => DETAIL_PREFIX
    case History(_, _) => HISTORY_PREFIX
    case TopMovers(_) => MOVERS_PREFIX
    case Idempotency(_) => IDEMPOTENCY_PREFIX
    case Insight(_) => INSIGHT_PREFIX
    case WorkerLock => WORKER_LOCK
    case Lock(_) => LOCK_PREFIX
  }

  lemma FamilyStartsKey(k: Key)
    ensures Family(k) <= Render(k)
  {
    assert DETAIL_PREFIX <= ALIAS_PREFIX;
  }

  /** The seventh character tells the four `coins:` families apart, the first two the rest. */
  lemma FamiliesDiverge(p: string, q: string)
    requires p in FAMILIES
    requires q in FAMILIES
    ensures p == q || exists i :: 0 <= i < |p| && i < |q| && p[i] != q[i]
  {
    if p != q && p[0] == q[0] == 'c' {
      assert p[6] != q[6];
    } else if p != q && p[0] == q[0] {
      assert p[1] != q[1];
    }
  }

  lemma FamilyUnique(p: string, q: string, key: string)
    requires p in FAMILIES
    requires q in FAMILIES
    requires p <= key && q <= key
    ensures p == q
  {
    FamiliesDiverge(p, q);
  }

  lemma SameFamily(j: Key, k: Key)
    requires Render(j) == Render(k)
    ensures Family(j) == Family(k)
  {
    FamilyStartsKey(j);
    FamilyStartsKey(k);
    FamilyUnique(Family(j), Family(k), Render(k));
  }

  lemma DetailIsNotAlias(u: Uuid, e: string)
    ensures Render(Detail(u)) != Render(DetailAlias(e))
  {
    assert Render(Detail(u))[14] == u[1];
    assert Render(DetailAlias(e))[14] == 'x';
  }

  lemma ListInjective(p: int, n: int, s: string, p': int, n': int, s': string)
    requires Render(List(p, n, s)) == Render(List(p', n', s'))
    ensures p == p' && n == n' && s == s'
  {
    DropPrefix(LIST_PREFIX, Number(p) + ":" + (Number(n) + ":" + s), Number(p') + ":" + (Number(n') + ":" + s'));
    NumberColonFree(p);
    NumberColonFree(p');
    NumberColonFree(n);
    NumberColonFree(n');
    SplitFirst(Number(p), Number(n) + ":" + s, Number(p'), Number(n') + ":" + s');
    SplitFirst(Number(n), s, Number(n'), s');
    NumberInjective(p, p');
    NumberInjective(n, n');
  }

  lemma HistoryInjective(c: string, d: int, c': string, d': int)
    requires Render(History(c, d)) == Render(History(c', d'))
    ensures c == c' && d == d'
  {
    DropPrefix(HISTORY_PREFIX, c + ":" + Number(d), c' + ":" + Number(d'));
    NumberColonFree(d);
    NumberColonFree(d');
    SplitLast(c, Number(d), c', Number(d'));
    NumberInjective(d, d');
  }

  /** No two different keys are written alike, whatever strings users supply. */
  lemma {:induction false} RenderInjective(j: Key, k: Key)
    requires Render(j) == Render(k)
    ensures j == k
  {
    SameFamily(j, k);
    match j {
      case List(p, n, s) =>
        ListInjective(p, n, s, k.page, k.perPage, k.sortBy);
      case Detail(u) =>
        if k.Detail? {
          DropPrefix(DETAIL_PREFIX, u, k.uuid);
        } else {
          DetailIsNotAlias(u, k.externalId);
        }
      case DetailAlias(e) =>
        if k.DetailAlias? {
          DropPrefix(ALIAS_PREFIX, e, k.externalId);
        } else {
          DetailIsNotAlias(k.uuid, e);
        }
      case History(c, d) =>
        HistoryInjective(c, d, k.coin, k.days);
      case TopMovers(n) =>
        DropPrefix(MOVERS_PREFIX, Number(n), Number(k.limit));
        NumberInjective(n, k.limit);
      case Idempotency(h) =>
        DropPrefix(IDEMPOTENCY_PREFIX, h, k.header);
      case Insight(c) =>
        DropPrefix(INSIGHT_PREFIX, c, k.coinId);
      case WorkerLock =>
      case Lock(inner) =>
        DropPrefix(LOCK_PREFIX, Render(inner), Render(k.inner));
        RenderInjective(inner, k.inner);
    }
  }

  /** Each invalidation pattern selects its own family and nothing else. */
  lemma PatternsSelectFamilies(k: Key)
    ensures Matches(LIST_PREFIX, Render(k)) <==> k.List?
    ensures Matches(DETAIL_PREFIX, Render(k)) <==> k.Detail? || k.DetailAlias?
    ensures Matches(MOVERS_PREFIX, Render(k)) <==> k.TopMovers?
  {
    FamilyStartsKey(k);
    if Matches(LIST_PREFIX, Render(k)) {
      FamilyUnique(LIST_PREFIX, Family(k), Render(k));
    }
    if Matches(DETAIL_PREFIX, Render(k)) {
      FamilyUnique(DETAIL_PREFIX, Family(k), Render(k));
    }
    if Matches(MOVERS_PREFIX, Render(k)) {
      FamilyUnique(MOVERS_PREFIX, Family(k), Render(k));
    }
  }
}
