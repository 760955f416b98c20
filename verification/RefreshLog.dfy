/**
 What a refresh run leaves behind, attempt by attempt, and what it adds up to:
 page accounting, snapshot conservation and worst-case duration. Durations are
 milliseconds.
 */
module RefreshLog {
  import opened Wrappers
  import opened CacheKeys
  import opened CryptoTable
  import opened PriceHistory
  import opened Database

  /** A coin as CoinGecko sends it. */
  datatype RawCoin = RawCoin(id: string, market: Market)

  /**
   Everything outside the worker's control in one attempt at a page: the provider's
   answer (None for any error or malformed answer), the UUIDs and clock readings of
   the upsert, whether the database accepts the rest of the transaction, how many
   Redis commands succeed, and how long it all takes.
   */
  datatype Attempt = Attempt(
    answer: Option<seq<RawCoin>>,
    minted: nat -> Uuid,
    clock: nat -> int,
    commits: bool,
    redisCommands: nat,
    duration: nat,
    error: string)

  /** What the attempt did with its answer: the history rows it committed, if any, and its result. */
  datatype AttemptLog = AttemptLog(
    answer: Option<seq<RawCoin>>,
    committed: bool,
    stored: seq<Snapshot>,
    result: Result<nat>,
    duration: nat)

  /** The attempts at one page; a dead letter, if one was due, took letterDuration. */
  datatype PageLog = PageLog(attempts: seq<AttemptLog>, letterDuration: nat)

  function LastOf(p: PageLog): AttemptLog
    requires p.attempts != []
  {
    p.attempts[|p.attempts| - 1]
  }

  predicate DistinctRaw(raw: seq<RawCoin>) {
    forall i, j :: 0 <= i < j < |raw| ==> raw[i].id != raw[j].id
  }

  /** One history row for each coin with a known price. */
  function Snapshots(raw: seq<RawCoin>, now: int): seq<Snapshot> {
    if raw == [] then []
    else
      var c := raw[|raw| - 1];
      Snapshots(raw[..|raw| - 1], now)
        + if c.market.currentPrice.Some? then [Snapshot(c.id, c.market.currentPrice.value, now)] else []
  }

  // -------------------------------------------------------- page accounting

  /** Tried at least once and at most M times, until it worked or there were no tries left. */
  predicate Settled(p: PageLog, maxRetries: nat) {
    && 1 <= |p.attempts| <= maxRetries
    && (forall k :: 0 <= k < |p.attempts| - 1 ==> p.attempts[k].result.Err?)
    && (LastOf(p).result.Err? ==> |p.attempts| == maxRetries)
  }

  predicate Succeeded(p: PageLog) {
    p.attempts != [] && LastOf(p).result.Ok?
  }

  function Successes(pages: seq<PageLog>): nat {
    if pages == [] then 0
    else Successes(pages[..|pages| - 1]) + if Succeeded(pages[|pages| - 1]) then 1 else 0
  }

  /** total_updated: the counts of the successful attempts. */
  function TotalUpdated(pages: seq<PageLog>): nat {
    if pages == [] then 0
    else
      var p := pages[|pages| - 1];
      TotalUpdated(pages[..|pages| - 1]) + if Succeeded(p) then LastOf(p).result.value else 0
  }

  /** The dead letters due: one for each page none of whose attempts worked, in page order. */
  function DeadLettersDue(pages: seq<PageLog>): seq<DeadLetter> {
    if pages == [] then []
    else
      var p := pages[|pages| - 1];
      DeadLettersDue(pages[..|pages| - 1])
        + (if p.attempts != [] && LastOf(p).result.Err?
           then [DeadLetter(|pages|, Shorten(LastOf(p).result.error))] else [])
  }

  ghost predicate AllSettled(pages: seq<PageLog>, maxRetries: nat) {
    forall n :: 0 <= n < |pages| ==> Settled(pages[n], maxRetries)
  }

  /** Page number n of the run did not work out. */
  predicate Failed(pages: seq<PageLog>, n: int) {
    1 <= n <= |pages| && !Succeeded(pages[n - 1])
  }

  function PagesOf(letters: seq<DeadLetter>): set<int> {
    set d | d in letters :: d.page
  }

  lemma PagesOfConcat(a: seq<DeadLetter>, b: seq<DeadLetter>)
    ensures PagesOf(a + b) == PagesOf(a) + PagesOf(b)
  {
    assert forall d :: d in a + b <==> d in a || d in b;
  }

  lemma FailedSnoc(pages: seq<PageLog>)
    requires pages != []
    ensures forall k ::
      (Failed(pages, k) <==> Failed(pages[..|pages| - 1], k) || (k == |pages| && !Succeeded(pages[|pages| - 1])))
  {
  }

  /** Every page is accounted for once: by a success, or by a dead letter after M tries. */
  lemma {:induction false} EveryPageAccountedFor(pages: seq<PageLog>, maxRetries: nat)
    requires AllSettled(pages, maxRetries)
    ensures Successes(pages) + |DeadLettersDue(pages)| == |pages|
    ensures forall n :: n in PagesOf(DeadLettersDue(pages)) <==> Failed(pages, n)
    ensures forall n :: Failed(pages, n) ==> |pages[n - 1].attempts| == maxRetries
  {
    if pages != [] {
      var n := |pages| - 1;
      var front, p := pages[..n], pages[n];
      EveryPageAccountedFor(front, maxRetries);
      FailedSnoc(pages);
      if !Succeeded(p) {
        var d := DeadLetter(n + 1, Shorten(LastOf(p).result.error));
        PagesOfConcat(DeadLettersDue(front), [d]);
        assert PagesOf([d]) == {n + 1};
      } else {
        assert DeadLettersDue(pages) == DeadLettersDue(front);
      }
    }
  }

  /** The letter names a page that failed, and says what went wrong at its last try. */
  predicate LetterFor(pages: seq<PageLog>, d: DeadLetter) {
    && 1 <= d.page <= |pages|
    && var p := pages[d.page - 1];
      p.attempts != [] && LastOf(p).result.Err? && d.error == Shorten(LastOf(p).result.error)
  }

  predicate InPageOrder(letters: seq<DeadLetter>) {
    forall i, j :: 0 <= i < j < |letters| ==> letters[i].page < letters[j].page
  }

  /** The dead letters are those of the failed pages, in page order, so one for each. */
  lemma {:induction false} LettersAreTheFailures(pages: seq<PageLog>)
    ensures forall d :: d in DeadLettersDue(pages) <==> LetterFor(pages, d)
    ensures InPageOrder(DeadLettersDue(pages))
  {
    if pages != [] {
      var n := |pages| - 1;
      var front := pages[..n];
      LettersAreTheFailures(front);
      assert forall d :: LetterFor(front, d) <==> d.page != n + 1 && LetterFor(pages, d);
      forall i | 0 <= i < |DeadLettersDue(front)|
        ensures DeadLettersDue(front)[i].page <= n
      {
        assert LetterFor(front, DeadLettersDue(front)[i]);
      }
    }
  }

  /** The coins in the answer that ended the page, if it ended well. */
  function CoinsOn(p: PageLog): nat {
    if Succeeded(p) && LastOf(p).answer.Some? then |LastOf(p).answer.value| else 0
  }

  function Pairs(n: nat, k: nat): set<(nat, nat)> {
    set i: nat | i < k :: (n, i)
  }

  /** Page n's coin i, for every page that ended well and every coin of its answer. */
  function UpdatedCoins(pages: seq<PageLog>): set<(nat, nat)> {
    set n: nat, i: nat | n < |pages| && i < CoinsOn(pages[n]) :: (n, i)
  }

  lemma {:induction false} PairsCount(n: nat, k: nat)
    ensures |Pairs(n, k)| == k
  {
    if k > 0 {
      PairsCount(n, k - 1);
      assert Pairs(n, k) == Pairs(n, k - 1) + {(n, k - 1)};
    }
  }

  lemma UpdatedSnoc(pages: seq<PageLog>)
    requires pages != []
    ensures var n := |pages| - 1;
      && UpdatedCoins(pages) == UpdatedCoins(pages[..n]) + Pairs(n, CoinsOn(pages[n]))
      && UpdatedCoins(pages[..n]) !! Pairs(n, CoinsOn(pages[n]))
  {
  }

  /** total_updated counts every coin of every page that ended well, once per page. */
  lemma {:induction false} TotalCountsCoins(pages: seq<PageLog>, now: int)
    requires RunFaithful(pages, now)
    ensures TotalUpdated(pages) == |UpdatedCoins(pages)|
  {
    if pages != [] {
      var n := |pages| - 1;
      var front, p := pages[..n], pages[n];
      TotalCountsCoins(front, now);
      PairsCount(n, CoinsOn(p));
      UpdatedSnoc(pages);
      assert p.attempts != [] ==> Faithful(LastOf(p), now);
    }
  }

  // ---------------------------------------------------- snapshot conservation

  /** The rows an attempt committed, then those of all attempts, then those of all pages. */
  function StoredByAttempts(attempts: seq<AttemptLog>): seq<Snapshot> {
    if attempts == [] then []
    else StoredByAttempts(attempts[..|attempts| - 1]) + attempts[|attempts| - 1].stored
  }

  function StoredBy(pages: seq<PageLog>): seq<Snapshot> {
    if pages == [] then []
    else StoredBy(pages[..|pages| - 1]) + StoredByAttempts(pages[|pages| - 1].attempts)
  }

  lemma OneMore(n: int, x: int)
    ensures (n + 1) * x == n * x + x
  {
  }

  /** Of the first n rows, those of that coin and instant. */
  function CountUpTo(rows: seq<Snapshot>, n: nat, coin: string, at: int): nat
    requires n <= |rows|
  {
    if n == 0 then 0
    else
      var r := rows[n - 1];
      CountUpTo(rows, n - 1, coin, at) + if r.externalId == coin && r.recordedAt == at then 1 else 0
  }

  function CountRows(rows: seq<Snapshot>, coin: string, at: int): nat {
    CountUpTo(rows, |rows|, coin, at)
  }

  lemma {:induction false} CountPrefix(a: seq<Snapshot>, b: seq<Snapshot>, n: nat, coin: string, at: int)
    requires n <= |a|
    ensures CountUpTo(a + b, n, coin, at) == CountUpTo(a, n, coin, at)
  {
    if n > 0 {
      CountPrefix(a, b, n - 1, coin, at);
    }
  }

  lemma {:induction false} CountSuffix(a: seq<Snapshot>, b: seq<Snapshot>, n: nat, coin: string, at: int)
    requires n <= |b|
    ensures CountUpTo(a + b, |a| + n, coin, at) == CountUpTo(a, |a|, coin, at) + CountUpTo(b, n, coin, at)
  {
    if n == 0 {
      CountPrefix(a, b, |a|, coin, at);
    } else {
      CountSuffix(a, b, n - 1, coin, at);
    }
  }

  lemma CountRowsConcat(a: seq<Snapshot>, b: seq<Snapshot>, coin: string, at: int)
    ensures CountRows(a + b, coin, at) == CountRows(a, coin, at) + CountRows(b, coin, at)
  {
    CountSuffix(a, b, |b|, coin, at);
  }

  lemma CountOne(r: Snapshot, coin: string, at: int)
    ensures CountRows([r], coin, at) == if r.externalId == coin && r.recordedAt == at then 1 else 0
  {
    assert CountUpTo([r], 0, coin, at) == 0;
  }

  /** Coin i of the answer is that coin, with a price. */
  predicate PricedAt(raw: seq<RawCoin>, coin: string, i: nat)
    requires i < |raw|
  {
    raw[i].id == coin && raw[i].market.currentPrice.Some?
  }

  predicate Priced(raw: seq<RawCoin>, coin: string) {
    exists i :: 0 <= i < |raw| && PricedAt(raw, coin, i)
  }

  lemma PricedSnoc(raw: seq<RawCoin>, coin: string)
    requires raw != []
    ensures Priced(raw, coin) <==> Priced(raw[..|raw| - 1], coin) || PricedAt(raw, coin, |raw| - 1)
  {
    var n := |raw| - 1;
    assert forall i :: 0 <= i < n ==> (PricedAt(raw[..n], coin, i) <==> PricedAt(raw, coin, i));
  }

  lemma {:induction false} SnapshotsCount(raw: seq<RawCoin>, coin: string, now: int)
    requires DistinctRaw(raw)
    ensures CountRows(Snapshots(raw, now), coin, now) == if Priced(raw, coin) then 1 else 0
  {
    if raw != [] {
      var n := |raw| - 1;
      var front, c := raw[..n], raw[n];
      SnapshotsCount(front, coin, now);
      PricedSnoc(raw, coin);
      assert c.id == coin ==> !Priced(front, coin);
      if c.market.currentPrice.Some? {
        var r := Snapshot(c.id, c.market.currentPrice.value, now);
        CountRowsConcat(Snapshots(front, now), [r], coin, now);
        CountOne(r, coin, now);
      } else {
        assert Snapshots(raw, now) == Snapshots(front, now);
      }
    }
  }

  /** The row is coin i of the answer, at the price that it has there. */
  predicate RecordsAt(raw: seq<RawCoin>, i: nat, row: Snapshot)
    requires i < |raw|
  {
    raw[i].id == row.externalId && raw[i].market.currentPrice == Some(row.price)
  }

  predicate Records(raw: seq<RawCoin>, row: Snapshot) {
    exists i :: 0 <= i < |raw| && RecordsAt(raw, i, row)
  }

  lemma RecordsSnoc(raw: seq<RawCoin>, row: Snapshot)
    requires raw != []
    ensures Records(raw, row) <==> Records(raw[..|raw| - 1], row) || RecordsAt(raw, |raw| - 1, row)
  {
    var n := |raw| - 1;
    assert forall i :: 0 <= i < n ==> (RecordsAt(raw[..n], i, row) <==> RecordsAt(raw, i, row));
  }

  /** The rows stored are the priced coins of the answer: each at its own price and at that instant, and no others. */
  lemma {:induction false} SnapshotsAreTheCoins(raw: seq<RawCoin>, now: int, row: Snapshot)
    ensures row in Snapshots(raw, now) <==> row.recordedAt == now && Records(raw, row)
  {
    if raw != [] {
      SnapshotsAreTheCoins(raw[..|raw| - 1], now, row);
      RecordsSnoc(raw, row);
    }
  }

  /** The log of an attempt is consistent with the answer the attempt was given. */
  predicate Faithful(log: AttemptLog, now: int) {
    && (log.committed ==>
         log.answer.Some? && log.answer.value != [] && DistinctRaw(log.answer.value)
         && log.stored == Snapshots(log.answer.value, now))
    && (!log.committed ==> log.stored == [])
    && (log.result.Ok? ==> log.answer.Some? && (log.answer.value == [] || log.committed))
    && (log.result.Ok? ==> log.result.value == |log.answer.value|)
  }

  predicate AttemptsFaithful(attempts: seq<AttemptLog>, now: int) {
    forall k :: 0 <= k < |attempts| ==> Faithful(attempts[k], now)
  }

  /** A committed attempt whose answer held the coin with a price. */
  predicate Carries(log: AttemptLog, coin: string) {
    log.committed && log.answer.Some? && Priced(log.answer.value, coin)
  }

  function CommitsCarrying(attempts: seq<AttemptLog>, coin: string): nat {
    if attempts == [] then 0
    else CommitsCarrying(attempts[..|attempts| - 1], coin) + if Carries(attempts[|attempts| - 1], coin) then 1 else 0
  }

  lemma AttemptStores(log: AttemptLog, coin: string, now: int)
    requires Faithful(log, now)
    ensures CountRows(log.stored, coin, now) == if Carries(log, coin) then 1 else 0
  {
    if log.committed {
      SnapshotsCount(log.answer.value, coin, now);
    }
  }

  /** Attempts at a page add one row for (coin, run) per commit that carried the coin, so never more than there are. */
  lemma {:induction false} AttemptsConserveSnapshots(attempts: seq<AttemptLog>, coin: string, now: int)
    requires AttemptsFaithful(attempts, now)
    ensures CountRows(StoredByAttempts(attempts), coin, now) == CommitsCarrying(attempts, coin) <= |attempts|
  {
    if attempts != [] {
      var n := |attempts| - 1;
      AttemptsConserveSnapshots(attempts[..n], coin, now);
      CountRowsConcat(StoredByAttempts(attempts[..n]), attempts[n].stored, coin, now);
      AttemptStores(attempts[n], coin, now);
    }
  }

  ghost predicate RunFaithful(pages: seq<PageLog>, now: int) {
    forall n :: 0 <= n < |pages| ==> AttemptsFaithful(pages[n].attempts, now)
  }

  function RunCommitsCarrying(pages: seq<PageLog>, coin: string): nat {
    if pages == [] then 0
    else RunCommitsCarrying(pages[..|pages| - 1], coin) + CommitsCarrying(pages[|pages| - 1].attempts, coin)
  }

  /**
   Over a whole run: the rows for (coin, run time) are exactly the commits that carried the
   coin, at most M a page.
   */
  lemma {:induction false} SnapshotConservation(pages: seq<PageLog>, maxRetries: nat, coin: string, now: int)
    requires RunFaithful(pages, now) && AllSettled(pages, maxRetries)
    ensures CountRows(StoredBy(pages), coin, now) == RunCommitsCarrying(pages, coin)
    ensures RunCommitsCarrying(pages, coin) <= |pages| * maxRetries
  {
    if pages != [] {
      var n := |pages| - 1;
      SnapshotConservation(pages[..n], maxRetries, coin, now);
      CountRowsConcat(StoredBy(pages[..n]), StoredByAttempts(pages[n].attempts), coin, now);
      AttemptsConserveSnapshots(pages[n].attempts, coin, now);
      assert Settled(pages[n], maxRetries);
      OneMore(n, maxRetries);
    }
  }

  /** Attempt k committed an answer with that row's coin and price. */
  predicate RecordedAt(attempts: seq<AttemptLog>, k: int, row: Snapshot) {
    0 <= k < |attempts| && attempts[k].committed && attempts[k].answer.Some? && Records(attempts[k].answer.value, row)
  }

  predicate RecordedOn(pages: seq<PageLog>, n: int, k: int, row: Snapshot) {
    0 <= n < |pages| && RecordedAt(pages[n].attempts, k, row)
  }

  lemma {:induction false} AttemptsStoreTheCoins(attempts: seq<AttemptLog>, now: int, row: Snapshot)
    requires AttemptsFaithful(attempts, now)
    ensures row in StoredByAttempts(attempts) <==> row.recordedAt == now && exists k :: RecordedAt(attempts, k, row)
  {
    if attempts != [] {
      var n := |attempts| - 1;
      AttemptsStoreTheCoins(attempts[..n], now, row);
      assert Faithful(attempts[n], now);
      if attempts[n].committed {
        SnapshotsAreTheCoins(attempts[n].answer.value, now, row);
      }
      assert row in attempts[n].stored <==> row.recordedAt == now && RecordedAt(attempts, n, row);
      assert forall k :: RecordedAt(attempts[..n], k, row) <==> k != n && RecordedAt(attempts, k, row);
    }
  }

  /** The rows a run stores are the priced coins of its committed answers: no other coin, price or instant. */
  lemma {:induction false} StoredRowsAreTheCoins(pages: seq<PageLog>, now: int, row: Snapshot)
    requires RunFaithful(pages, now)
    ensures row in StoredBy(pages) <==> row.recordedAt == now && exists n, k :: RecordedOn(pages, n, k, row)
  {
    if pages != [] {
      var n := |pages| - 1;
      StoredRowsAreTheCoins(pages[..n], now, row);
      AttemptsStoreTheCoins(pages[n].attempts, now, row);
      assert forall m, k :: RecordedOn(pages[..n], m, k, row) <==> m != n && RecordedOn(pages, m, k, row);
      assert forall k :: RecordedAt(pages[n].attempts, k, row) <==> RecordedOn(pages, n, k, row);
    }
  }

  /** Nothing went wrong once a transaction of the page had committed. */
  predicate CleanAfterCommit(p: PageLog) {
    forall k :: 0 <= k < |p.attempts| && p.attempts[k].committed ==> p.attempts[k].result.Ok?
  }

  predicate CarriesAt(attempts: seq<AttemptLog>, k: int, coin: string) {
    0 <= k < |attempts| && Carries(attempts[k], coin)
  }

  lemma CarriesInFront(attempts: seq<AttemptLog>, coin: string)
    requires attempts != []
    ensures var n := |attempts| - 1;
      forall k :: CarriesAt(attempts, k, coin)
        <==> CarriesAt(attempts[..n], k, coin) || (k == n && Carries(attempts[n], coin))
  {
  }

  lemma {:induction false} NoneCarries(attempts: seq<AttemptLog>, coin: string)
    ensures CommitsCarrying(attempts, coin) == 0 <==> forall k :: !CarriesAt(attempts, k, coin)
  {
    if attempts != [] {
      NoneCarries(attempts[..|attempts| - 1], coin);
      CarriesInFront(attempts, coin);
      assert Carries(attempts[|attempts| - 1], coin) ==> CarriesAt(attempts, |attempts| - 1, coin);
    }
  }

  /** Without failures after a commit, only the attempt that ended the page can have stored the coin. */
  lemma CleanPageStoresAtMostOnce(p: PageLog, maxRetries: nat, coin: string)
    requires Settled(p, maxRetries) && CleanAfterCommit(p)
    ensures CommitsCarrying(p.attempts, coin) == if Carries(LastOf(p), coin) then 1 else 0
  {
    NoneCarries(p.attempts[..|p.attempts| - 1], coin);
  }

  /** The coin is priced in some committed answer of page n. */
  predicate PageCarries(pages: seq<PageLog>, n: nat, coin: string)
    requires n < |pages|
  {
    exists k :: 0 <= k < |pages[n].attempts| && CarriesAt(pages[n].attempts, k, coin)
  }

  /** No page but page n carries the coin. */
  ghost predicate OnlyOn(pages: seq<PageLog>, n: nat, coin: string) {
    forall m :: 0 <= m < |pages| && m != n ==> !PageCarries(pages, m, coin)
  }

  lemma {:induction false} OnlyPageCounts(pages: seq<PageLog>, n: nat, coin: string)
    requires OnlyOn(pages, n, coin)
    ensures RunCommitsCarrying(pages, coin) == if n < |pages| then CommitsCarrying(pages[n].attempts, coin) else 0
  {
    if pages != [] {
      var last := |pages| - 1;
      var front := pages[..last];
      forall m | 0 <= m < last && m != n
        ensures !PageCarries(front, m, coin)
      {
        assert !PageCarries(pages, m, coin);
      }
      OnlyPageCounts(front, n, coin);
      NoneCarries(pages[last].attempts, coin);
      if last != n {
        assert !PageCarries(pages, last, coin);
      }
    }
  }

  /**
   One row per coin per run, as the design promises: for a coin on one page that ends well,
   and no failure after a commit.
   */
  lemma OneRowPerCoinPerRun(pages: seq<PageLog>, maxRetries: nat, coin: string, now: int, n: nat)
    requires RunFaithful(pages, now) && AllSettled(pages, maxRetries) && OnlyOn(pages, n, coin)
    requires n < |pages| ==> CleanAfterCommit(pages[n])
    ensures CountRows(StoredBy(pages), coin, now) == if n < |pages| && Carries(LastOf(pages[n]), coin) then 1 else 0
  {
    SnapshotConservation(pages, maxRetries, coin, now);
    OnlyPageCounts(pages, n, coin);
    if n < |pages| {
      CleanPageStoresAtMostOnce(pages[n], maxRetries, coin);
    }
  }

  /** Attempt k at page n committed the coin. */
  predicate Carried(pages: seq<PageLog>, n: int, k: int, coin: string) {
    0 <= n < |pages| && CarriesAt(pages[n].attempts, k, coin)
  }

  ghost predicate CarriedOnce(pages: seq<PageLog>, coin: string) {
    exists n, k :: Carried(pages, n, k, coin) && forall m, j :: Carried(pages, m, j, coin) ==> m == n && j == k
  }

  ghost predicate CarryOnce(attempts: seq<AttemptLog>, coin: string) {
    exists k :: CarriesAt(attempts, k, coin) && forall j :: CarriesAt(attempts, j, coin) ==> j == k
  }

  lemma OnceInFrontOrHere(attempts: seq<AttemptLog>, coin: string)
    requires attempts != []
    ensures var front, last := attempts[..|attempts| - 1], attempts[|attempts| - 1];
      CarryOnce(attempts, coin) <==>
        || (CarryOnce(front, coin) && !Carries(last, coin))
        || (Carries(last, coin) && forall k :: !CarriesAt(front, k, coin))
  {
    var n := |attempts| - 1;
    CarriesInFront(attempts, coin);
    if Carries(attempts[n], coin) {
      assert CarriesAt(attempts, n, coin);
      assert forall k :: CarriesAt(attempts[..n], k, coin) ==> CarriesAt(attempts, k, coin) && k != n;
    } else {
      assert forall k :: CarriesAt(attempts, k, coin) <==> CarriesAt(attempts[..n], k, coin);
    }
  }

  lemma {:induction false} AttemptsCarryOnce(attempts: seq<AttemptLog>, coin: string)
    ensures CommitsCarrying(attempts, coin) == 1 <==> CarryOnce(attempts, coin)
  {
    if attempts != [] {
      AttemptsCarryOnce(attempts[..|attempts| - 1], coin);
      NoneCarries(attempts[..|attempts| - 1], coin);
      OnceInFrontOrHere(attempts, coin);
    }
  }

  lemma CarriedInFront(pages: seq<PageLog>, coin: string)
    requires pages != []
    ensures var n := |pages| - 1;
      forall m, k :: Carried(pages, m, k, coin)
        <==> Carried(pages[..n], m, k, coin) || (m == n && CarriesAt(pages[n].attempts, k, coin))
  {
  }

  lemma {:induction false} NoPageCarries(pages: seq<PageLog>, coin: string)
    ensures RunCommitsCarrying(pages, coin) == 0 <==> forall n, k :: !Carried(pages, n, k, coin)
  {
    if pages != [] {
      var n := |pages| - 1;
      NoPageCarries(pages[..n], coin);
      NoneCarries(pages[n].attempts, coin);
      CarriedInFront(pages, coin);
      assert forall k :: CarriesAt(pages[n].attempts, k, coin) ==> Carried(pages, n, k, coin);
      assert forall m, k :: Carried(pages[..n], m, k, coin) ==> Carried(pages, m, k, coin);
    }
  }

  lemma {:induction false} PagesCarryOnce(pages: seq<PageLog>, coin: string)
    ensures RunCommitsCarrying(pages, coin) == 1 <==> CarriedOnce(pages, coin)
  {
    if pages != [] {
      var n := |pages| - 1;
      PagesCarryOnce(pages[..n], coin);
      NoPageCarries(pages[..n], coin);
      AttemptsCarryOnce(pages[n].attempts, coin);
      NoneCarries(pages[n].attempts, coin);
      OnceInFrontOrLast(pages, coin);
    }
  }

  lemma OnceInFrontOrLast(pages: seq<PageLog>, coin: string)
    requires pages != []
    ensures var front, attempts := pages[..|pages| - 1], pages[|pages| - 1].attempts;
      CarriedOnce(pages, coin) <==>
        || (CarriedOnce(front, coin) && forall k :: !CarriesAt(attempts, k, coin))
        || (CarryOnce(attempts, coin) && forall m, k :: !Carried(front, m, k, coin))
  {
    var n := |pages| - 1;
    var front, attempts := pages[..n], pages[n].attempts;
    CarriedInFront(pages, coin);
    assert forall k :: CarriesAt(attempts, k, coin) ==> Carried(pages, n, k, coin);
    assert forall m, k :: Carried(front, m, k, coin) ==> Carried(pages, m, k, coin) && m != n;
    if CarriedOnce(pages, coin) {
      var m, k :| Carried(pages, m, k, coin) && forall i, j :: Carried(pages, i, j, coin) ==> i == m && j == k;
      if m == n {
        assert CarriesAt(attempts, k, coin);
        assert forall i, j :: !Carried(front, i, j, coin);
      } else {
        assert Carried(front, m, k, coin);
        assert forall j :: !CarriesAt(attempts, j, coin);
      }
    }
  }

  /** A run has exactly one row of a coin if and only if exactly one attempt at exactly one page committed it. */
  lemma OneRowIffCarriedOnce(pages: seq<PageLog>, maxRetries: nat, coin: string, now: int)
    requires RunFaithful(pages, now) && AllSettled(pages, maxRetries)
    ensures CountRows(StoredBy(pages), coin, now) == 1 <==> CarriedOnce(pages, coin)
  {
    SnapshotConservation(pages, maxRetries, coin, now);
    PagesCarryOnce(pages, coin);
  }

  /** The run's own purge does not touch the rows the run has just written. */
  lemma {:induction false} PurgeSparesTheRun(rows: seq<Snapshot>, cutoff: int, coin: string, at: int)
    requires cutoff <= at
    ensures CountRows(Purged(rows, cutoff), coin, at) == CountRows(rows, coin, at)
  {
    if rows != [] {
      var front, last := rows[..|rows| - 1], rows[|rows| - 1];
      var kept := if last.recordedAt < cutoff then [] else [last];
      PurgeSparesTheRun(front, cutoff, coin, at);
      CountOne(last, coin, at);
      CountRowsConcat(Purged(front, cutoff), kept, coin, at);
      CountRowsConcat(front, [last], coin, at);
      assert rows == front + [last];
      PurgedSnoc(front, last, cutoff);
    }
  }

  // ------------------------------------------------------------------- time

  function Pow2(n: nat): nat {
    if n == 0 then 1 else 2 * Pow2(n - 1)
  }

  /** asyncio.sleep(2 ** attempt) after each failed attempt that is not the last one allowed. */
  function Backoff(attempts: nat): nat {
    if attempts <= 1 then 0 else Backoff(attempts - 1) + Pow2(attempts - 1) * 1000
  }

  lemma {:induction false} BackoffClosedForm(attempts: nat)
    requires attempts >= 1
    ensures Backoff(attempts) == (Pow2(attempts) - 2) * 1000
  {
    if attempts > 1 {
      BackoffClosedForm(attempts - 1);
    }
  }

  lemma {:induction false} BackoffMonotone(m: nat, n: nat)
    requires m <= n
    ensures Backoff(m) <= Backoff(n)
  {
    if m < n {
      BackoffMonotone(m, n - 1);
    }
  }

  function Durations(attempts: seq<AttemptLog>): nat {
    if attempts == [] then 0 else Durations(attempts[..|attempts| - 1]) + attempts[|attempts| - 1].duration
  }

  function PageTime(p: PageLog): nat {
    Durations(p.attempts) + Backoff(|p.attempts|)
      + if p.attempts != [] && LastOf(p).result.Err? then p.letterDuration else 0
  }

  function PagesTime(pages: seq<PageLog>): nat {
    if pages == [] then 0 else PagesTime(pages[..|pages| - 1]) + PageTime(pages[|pages| - 1])
  }

  /** Bounds on the pieces of a run: pages, tries, and the longest attempt, dead-letter write and purge. */
  datatype Limits = Limits(pages: nat, maxRetries: nat, attempt: nat, letter: nat, purge: nat)

  ghost predicate WithinLimits(l: Limits, p: PageLog) {
    && Settled(p, l.maxRetries)
    && p.letterDuration <= l.letter
    && forall k :: 0 <= k < |p.attempts| ==> p.attempts[k].duration <= l.attempt
  }

  /** M attempts of C each, all the backoff there is, and a dead letter. */
  function WorstPage(l: Limits): int {
    l.maxRetries * l.attempt + (Pow2(l.maxRetries) - 2) * 1000 + l.letter
  }

  function WorstRun(l: Limits): int {
    l.pages * WorstPage(l) + l.purge
  }

  lemma {:induction false} DurationsBounded(attempts: seq<AttemptLog>, longest: nat)
    requires forall k :: 0 <= k < |attempts| ==> attempts[k].duration <= longest
    ensures Durations(attempts) <= |attempts| * longest
  {
    if attempts != [] {
      var n := |attempts| - 1;
      DurationsBounded(attempts[..n], longest);
      OneMore(n, longest);
    }
  }

  lemma PageTimeBounded(l: Limits, p: PageLog)
    requires WithinLimits(l, p)
    ensures PageTime(p) <= WorstPage(l)
  {
    DurationsBounded(p.attempts, l.attempt);
    assert |p.attempts| * l.attempt <= l.maxRetries * l.attempt;
    BackoffMonotone(|p.attempts|, l.maxRetries);
    BackoffClosedForm(l.maxRetries);
  }

  lemma {:induction false} PagesTimeBounded(pages: seq<PageLog>, longest: int)
    requires forall n :: 0 <= n < |pages| ==> PageTime(pages[n]) <= longest
    ensures PagesTime(pages) <= |pages| * longest
  {
    if pages != [] {
      var n := |pages| - 1;
      PagesTimeBounded(pages[..n], longest);
      OneMore(n, longest);
    }
  }

  lemma {:induction false} Pow2AtLeastTwo(n: nat)
    requires n >= 1
    ensures Pow2(n) >= 2
  {
    if n > 1 {
      Pow2AtLeastTwo(n - 1);
    }
  }

  /** No run, complete or cut short, is longer than the worst one. */
  lemma RunTimeBounded(l: Limits, pages: seq<PageLog>, purge: nat)
    requires l.maxRetries >= 1 && |pages| <= l.pages && purge <= l.purge
    requires forall n :: 0 <= n < |pages| ==> WithinLimits(l, pages[n])
    ensures PagesTime(pages) + purge <= WorstRun(l)
  {
    forall n | 0 <= n < |pages|
      ensures PageTime(pages[n]) <= WorstPage(l)
    {
      PageTimeBounded(l, pages[n]);
    }
    PagesTimeBounded(pages, WorstPage(l));
    Pow2AtLeastTwo(l.maxRetries);
    Times(|pages|, l.pages, WorstPage(l));
  }

  lemma Times(m: int, n: int, x: int)
    requires m <= n && x >= 0
    ensures m * x <= n * x
  {
  }

  /** An attempt that fails as slowly as it may. */
  function SlowAttempt(l: Limits): AttemptLog {
    AttemptLog(None, false, [], Err("timeout"), l.attempt)
  }

  function SlowPage(l: Limits): PageLog {
    PageLog(seq(l.maxRetries, _ => SlowAttempt(l)), l.letter)
  }

  function SlowPages(l: Limits, n: nat): (pages: seq<PageLog>)
    ensures |pages| == n
  {
    seq(n, _ => SlowPage(l))
  }

  function SlowRun(l: Limits): seq<PageLog> {
    SlowPages(l, l.pages)
  }

  lemma {:induction false} EqualDurations(attempts: seq<AttemptLog>, each: nat)
    requires forall k :: 0 <= k < |attempts| ==> attempts[k].duration == each
    ensures Durations(attempts) == |attempts| * each
  {
    if attempts != [] {
      var n := |attempts| - 1;
      EqualDurations(attempts[..n], each);
      OneMore(n, each);
    }
  }

  lemma {:induction false} EqualPages(pages: seq<PageLog>, each: int)
    requires forall n :: 0 <= n < |pages| ==> PageTime(pages[n]) == each
    ensures PagesTime(pages) == |pages| * each
  {
    if pages != [] {
      var n := |pages| - 1;
      EqualPages(pages[..n], each);
      OneMore(n, each);
    }
  }

  lemma SlowPageTime(l: Limits)
    requires l.maxRetries >= 1
    ensures WithinLimits(l, SlowPage(l)) && PageTime(SlowPage(l)) == WorstPage(l)
  {
    EqualDurations(SlowPage(l).attempts, l.attempt);
    BackoffClosedForm(l.maxRetries);
  }

  /** The worst case happens: every attempt fails at the last moment. */
  lemma WorstRunReached(l: Limits)
    requires l.maxRetries >= 1
    ensures |SlowRun(l)| == l.pages
    ensures forall n :: 0 <= n < l.pages ==> WithinLimits(l, SlowRun(l)[n])
    ensures PagesTime(SlowRun(l)) + l.purge == WorstRun(l)
  {
    SlowPageTime(l);
    EqualPages(SlowRun(l), WorstPage(l));
  }
}
