/**
 What a refresh run promises and when it keeps the promise: one history row per coin
 and run, and a success gauge that stands for stored data. Both fail in runs that end
 well; the exact conditions here are conditions on what the run meets, not on what it
 leaves behind. Instants are milliseconds.
 */
module RefreshPromises {
  import opened Wrappers
  import opened CacheKeys
  import opened CryptoTable
  import opened PriceHistory
  import opened Database
  import opened RefreshLog
  import opened RefreshWorker

  // ---------------------------------------------- a run follows from its world

  /** The try, from the k-th on, that ends a page: the first that works, or the last one allowed. */
  function TriesFrom(maxRetries: nat, plan: nat -> Attempt, coins: CryptoTable.Table, now: int, k: nat): nat
    requires 1 <= k <= maxRetries
    decreases maxRetries - k
  {
    if k == maxRetries || Logged(plan(k), CoinsAfter(plan, coins, now, k - 1), now).result.Ok? then k
    else TriesFrom(maxRetries, plan, coins, now, k + 1)
  }

  function Tries(maxRetries: nat, plan: nat -> Attempt, coins: CryptoTable.Table, now: int): nat
    requires maxRetries >= 1
  {
    TriesFrom(maxRetries, plan, coins, now, 1)
  }

  lemma {:induction false} TriesAre(
      maxRetries: nat, plan: nat -> Attempt, coins: CryptoTable.Table, now: int, attempts: seq<AttemptLog>, k: nat)
    requires 1 <= k <= |attempts| <= maxRetries && Tried(plan, now, coins, attempts)
    requires forall j :: 0 <= j < |attempts| - 1 ==> attempts[j].result.Err?
    requires attempts[|attempts| - 1].result.Err? ==> |attempts| == maxRetries
    ensures TriesFrom(maxRetries, plan, coins, now, k) == |attempts|
    decreases |attempts| - k
  {
    assert attempts[k - 1] == Logged(plan(k - 1 + 1), CoinsAfter(plan, coins, now, k - 1), now);
    if k < |attempts| {
      TriesAre(maxRetries, plan, coins, now, attempts, k + 1);
    }
  }

  lemma PageTries(
      maxRetries: nat, plan: nat -> Attempt, letter: Housekeeping, now: int, coins: CryptoTable.Table, p: PageLog)
    requires maxRetries >= 1 && PageDone(maxRetries, plan, letter, now, coins, p)
    ensures |p.attempts| == Tries(maxRetries, plan, coins, now)
  {
    TriesAre(maxRetries, plan, coins, now, p.attempts, 1);
  }

  /** The coins that the first n pages leave. */
  function CoinsBefore(
      maxRetries: nat, world: World, coins: CryptoTable.Table, now: int, n: nat): CryptoTable.Table
    requires maxRetries >= 1
  {
    if n == 0 then coins
    else
      var before := CoinsBefore(maxRetries, world, coins, now, n - 1);
      CoinsAfter(PlanFor(world, n), before, now, Tries(maxRetries, PlanFor(world, n), before, now))
  }

  /** Page n of a run, as its world determines it. */
  ghost predicate FollowsWorld(
      maxRetries: nat, world: World, now: int, coins: CryptoTable.Table, n: nat, p: PageLog)
    requires maxRetries >= 1 && n >= 1
  {
    var before := CoinsBefore(maxRetries, world, coins, now, n - 1);
    && |p.attempts| == Tries(maxRetries, PlanFor(world, n), before, now)
    && Tried(PlanFor(world, n), now, before, p.attempts)
  }

  lemma {:induction false} PagesFollowWorld(
      maxRetries: nat, world: World, now: int, coins: CryptoTable.Table, pages: seq<PageLog>)
    requires maxRetries >= 1 && PagesDone(maxRetries, world, now, coins, pages)
    ensures RunCoins(world, now, coins, pages) == CoinsBefore(maxRetries, world, coins, now, |pages|)
  {
    if pages != [] {
      var n := |pages| - 1;
      PagesFollowWorld(maxRetries, world, now, coins, pages[..n]);
      var before := RunCoins(world, now, coins, pages[..n]);
      PageTries(maxRetries, PlanFor(world, n + 1), world.letters(n + 1), now, before, pages[n]);
    }
  }

  lemma {:induction false} PageFollowsWorld(
      maxRetries: nat, world: World, now: int, coins: CryptoTable.Table, pages: seq<PageLog>, n: nat)
    requires maxRetries >= 1 && PagesDone(maxRetries, world, now, coins, pages) && n < |pages|
    ensures FollowsWorld(maxRetries, world, now, coins, n + 1, pages[n])
  {
    var front := pages[..|pages| - 1];
    if n < |front| {
      PageFollowsWorld(maxRetries, world, now, coins, front, n);
    } else {
      PagesFollowWorld(maxRetries, world, now, coins, front);
      var before := RunCoins(world, now, coins, front);
      PageTries(maxRetries, PlanFor(world, n + 1), world.letters(n + 1), now, before, pages[n]);
    }
  }

  // ------------------------------------------------- one row per coin and run

  /** Try k at page n is made, its transaction goes through, and the coin is in it with a price. */
  ghost predicate StoresAt(
      maxRetries: nat, world: World, coins: CryptoTable.Table, now: int, n: nat, k: nat, coin: string)
    requires maxRetries >= 1
  {
    && n >= 1 && k >= 1
    && var plan, before := PlanFor(world, n), CoinsBefore(maxRetries, world, coins, now, n - 1);
    && k <= Tries(maxRetries, plan, before, now)
    && Commits(plan(k), CoinsAfter(plan, before, now, k - 1), now)
    && Priced(plan(k).answer.value, coin)
  }

  /** The same, as a function of page and try. */
  ghost function StoresWhere(
      maxRetries: nat, world: World, coins: CryptoTable.Table, now: int, coin: string): (nat, nat) -> bool
    requires maxRetries >= 1
  {
    (n: nat, k: nat) => StoresAt(maxRetries, world, coins, now, n, k, coin)
  }

  /** True of exactly one try at exactly one of the first `pages` pages. */
  ghost predicate Once(pages: nat, at: (nat, nat) -> bool) {
    exists n: nat, k: nat ::
      && n <= pages && at(n, k)
      && forall m: nat, j: nat :: m <= pages && at(m, j) ==> m == n && j == k
  }

  /** Exactly one try at exactly one of the first `pages` pages stores the coin. */
  ghost predicate StoresOnce(
      maxRetries: nat, world: World, coins: CryptoTable.Table, now: int, pages: nat, coin: string)
    requires maxRetries >= 1
  {
    Once(pages, StoresWhere(maxRetries, world, coins, now, coin))
  }

  lemma CarriedIffStores(
      maxRetries: nat, world: World, now: int, coins: CryptoTable.Table, pages: seq<PageLog>,
      n: nat, k: nat, coin: string)
    requires maxRetries >= 1 && PagesDone(maxRetries, world, now, coins, pages) && n < |pages|
    ensures Carried(pages, n, k, coin) <==> StoresWhere(maxRetries, world, coins, now, coin)(n + 1, k + 1)
  {
    assert CarriesAt(pages[n].attempts, k, coin) <==> StoresAt(maxRetries, world, coins, now, n + 1, k + 1, coin) by {
      PageFollowsWorld(maxRetries, world, now, coins, pages, n);
      PageCarriesWhereStored(maxRetries, world, now, coins, n + 1, pages[n], k, coin);
    }
  }

  lemma PageCarriesWhereStored(
      maxRetries: nat, world: World, now: int, coins: CryptoTable.Table, n: nat, p: PageLog, k: nat, coin: string)
    requires maxRetries >= 1 && n >= 1 && FollowsWorld(maxRetries, world, now, coins, n, p)
    ensures CarriesAt(p.attempts, k, coin) <==> StoresAt(maxRetries, world, coins, now, n, k + 1, coin)
  {
    if k < |p.attempts| {
      var plan, before := PlanFor(world, n), CoinsBefore(maxRetries, world, coins, now, n - 1);
      assert p.attempts[k] == Logged(plan(k + 1), CoinsAfter(plan, before, now, k), now);
    }
  }

  lemma StoresFromOne(maxRetries: nat, world: World, coins: CryptoTable.Table, now: int, coin: string)
    requires maxRetries >= 1
    ensures forall n: nat, k: nat :: StoresWhere(maxRetries, world, coins, now, coin)(n, k) ==> n >= 1 && k >= 1
  {
  }

  /** Counting pages and tries from one instead of from zero makes no difference. */
  lemma OnceEitherWay(pages: seq<PageLog>, coin: string, at: (nat, nat) -> bool)
    requires forall n: nat, k: nat :: n < |pages| ==> (Carried(pages, n, k, coin) <==> at(n + 1, k + 1))
    requires forall n: nat, k: nat :: at(n, k) ==> n >= 1 && k >= 1
    ensures CarriedOnce(pages, coin) <==> Once(|pages|, at)
  {
    if CarriedOnce(pages, coin) {
      var n: nat, k: nat :|
        Carried(pages, n, k, coin) && forall m, j :: Carried(pages, m, j, coin) ==> m == n && j == k;
      forall m: nat, j: nat | m <= |pages| && at(m, j)
        ensures m == n + 1 && j == k + 1
      {
        assert at(m - 1 + 1, j - 1 + 1);
        assert Carried(pages, m - 1, j - 1, coin);
      }
      assert at(n + 1, k + 1);
    }
    if n: nat, k: nat :|
      && n <= |pages| && at(n, k) && forall m: nat, j: nat :: m <= |pages| && at(m, j) ==> m == n && j == k
    {
      assert at(n - 1 + 1, k - 1 + 1);
      assert Carried(pages, n - 1, k - 1, coin);
      forall m, j | Carried(pages, m, j, coin)
        ensures m == n - 1 && j == k - 1
      {
        assert at(m + 1, j + 1);
      }
    }
  }

  lemma CarriedWhereStored(
      maxRetries: nat, world: World, now: int, coins: CryptoTable.Table, pages: seq<PageLog>, coin: string)
    requires maxRetries >= 1 && PagesDone(maxRetries, world, now, coins, pages)
    ensures forall n: nat, k: nat :: n < |pages| ==>
      (Carried(pages, n, k, coin) <==> StoresWhere(maxRetries, world, coins, now, coin)(n + 1, k + 1))
  {
    forall n: nat, k: nat | n < |pages|
      ensures Carried(pages, n, k, coin) <==> StoresWhere(maxRetries, world, coins, now, coin)(n + 1, k + 1)
    {
      CarriedIffStores(maxRetries, world, now, coins, pages, n, k, coin);
    }
  }

  lemma CarriedOnceIffStoresOnce(
      maxRetries: nat, world: World, now: int, coins: CryptoTable.Table, pages: seq<PageLog>, coin: string)
    requires maxRetries >= 1 && PagesDone(maxRetries, world, now, coins, pages)
    ensures CarriedOnce(pages, coin) <==> StoresOnce(maxRetries, world, coins, now, |pages|, coin)
  {
    CarriedWhereStored(maxRetries, world, now, coins, pages, coin);
    StoresFromOne(maxRetries, world, coins, now, coin);
    OnceEitherWay(pages, coin, StoresWhere(maxRetries, world, coins, now, coin));
  }

  /**
   A run has exactly one row of a coin if and only if exactly one of the tries that its
   world makes it go through, over all pages, commits the coin with a price.
   */
  lemma OneRowIffStoresOnce(
      maxRetries: nat, world: World, now: int, coins: CryptoTable.Table, pages: seq<PageLog>, coin: string)
    requires maxRetries >= 1 && PagesDone(maxRetries, world, now, coins, pages)
    ensures CountRows(StoredBy(pages), coin, now) == 1
      <==> StoresOnce(maxRetries, world, coins, now, |pages|, coin)
  {
    assert CountRows(StoredBy(pages), coin, now) == 1 <==> CarriedOnce(pages, coin) by {
      DonePagesAreAccountable(maxRetries, world, now, coins, pages);
      OneRowIffCarriedOnce(pages, maxRetries, coin, now);
    }
    CarriedOnceIffStoresOnce(maxRetries, world, now, coins, pages, coin);
  }

  /** A page whose first attempt commits but loses Redis, and whose second gets the same answer and Redis back. */
  function RetryAfterCommit(a: Attempt): nat -> Attempt
    requires a.answer.Some?
  {
    (k: nat) => if k == 1 then a else a.(redisCommands := CommandsFor(|a.answer.value|))
  }

  lemma SameBatchAgain(a: Attempt, coins: CryptoTable.Table, now: int)
    requires Injective(coins) && Commits(a, coins, now)
    ensures Commits(a, CoinsAfterOne(a, coins, now), now)
  {
    var batch, minted := Stamped(CoinsOf(a.answer.value, now), a.clock), Minted(a, |a.answer.value|);
    var after := Upserted(a, coins, now).value;
    UpsertRefreshes(coins, batch, minted);
    UpsertSucceedsIff(coins, batch, minted);
    UpsertSucceedsIff(after, batch, minted);
    forall i | 0 <= i < |batch|
      ensures batch[i].externalId in after
    {
      InBatch(batch, i);
    }
  }

  /** Then every priced coin of the page has two rows for one run, although the page ended well. */
  lemma RetryStoresTwice(a: Attempt, tables: Tables, now: int, maxRetries: nat, letter: Housekeeping, coin: string)
    returns (p: PageLog)
    requires maxRetries >= 2 && Injective(tables.coins)
    requires Commits(a, tables.coins, now) && a.redisCommands < CommandsFor(|a.answer.value|)
    requires Priced(a.answer.value, coin)
    ensures PageDone(maxRetries, RetryAfterCommit(a), letter, now, tables.coins, p) && Succeeded(p)
    ensures CountRows(tables.history + StoredByAttempts(p.attempts), coin, now)
      == CountRows(tables.history, coin, now) + 2
  {
    var plan := RetryAfterCommit(a);
    var middle := CoinsAfterOne(a, tables.coins, now);
    SameBatchAgain(a, tables.coins, now);
    assert Upserted(plan(2), middle, now) == Upserted(a, middle, now);
    var first, second := Logged(a, tables.coins, now), Logged(plan(2), middle, now);
    p := PageLog([first, second], letter.duration);
    assert CoinsAfter(plan, tables.coins, now, 1) == middle;
    assert Tried(plan, now, tables.coins, p.attempts);
    TriedIsFaithful(plan, now, tables.coins, p.attempts);
    TwoCarry(p.attempts, coin);
    AttemptsConserveSnapshots(p.attempts, coin, now);
    CountRowsConcat(tables.history, StoredByAttempts(p.attempts), coin, now);
  }

  lemma TwoCarry(attempts: seq<AttemptLog>, coin: string)
    requires |attempts| == 2 && Carries(attempts[0], coin) && Carries(attempts[1], coin)
    ensures CommitsCarrying(attempts, coin) == 2
  {
    var one := attempts[..1];
    assert one[..0] == [];
    assert CommitsCarrying(one, coin) == 1;
  }

  /** Answers that hold the coin on both of the first two pages. */
  function OnBothPages(a: Attempt, b: Attempt, letter: Housekeeping, purge: Housekeeping): World {
    World((n: nat, k: nat) => if n == 1 then a else b, (n: nat) => letter, purge, true)
  }

  lemma OneGoodTry(maxRetries: nat, plan: nat -> Attempt, letter: Housekeeping, now: int, coins: CryptoTable.Table)
    returns (p: PageLog)
    requires maxRetries >= 1 && Commits(plan(1), coins, now)
    requires plan(1).redisCommands >= CommandsFor(|plan(1).answer.value|)
    ensures p.attempts == [Logged(plan(1), coins, now)] && Succeeded(p)
    ensures PageDone(maxRetries, plan, letter, now, coins, p)
    ensures CoinsAfter(plan, coins, now, 1) == CoinsAfterOne(plan(1), coins, now)
  {
    p := PageLog([Logged(plan(1), coins, now)], letter.duration);
    assert CoinsAfter(plan, coins, now, 0) == coins;
  }

  /**
   The second way to two rows, with no failure at all: between the two fetches a coin
   moves from one page to the other, and each page is stored at the first try.
   */
  lemma ShiftedCoinStoredTwice(
      a: Attempt, b: Attempt, coins: CryptoTable.Table, now: int, maxRetries: nat,
      letter: Housekeeping, purge: Housekeeping, coin: string) returns (pages: seq<PageLog>)
    requires maxRetries >= 1
    requires Commits(a, coins, now) && a.redisCommands >= CommandsFor(|a.answer.value|)
    requires Commits(b, CoinsAfterOne(a, coins, now), now) && b.redisCommands >= CommandsFor(|b.answer.value|)
    requires Priced(a.answer.value, coin) && Priced(b.answer.value, coin)
    ensures PagesDone(maxRetries, OnBothPages(a, b, letter, purge), now, coins, pages)
    ensures |pages| == 2 && Successes(pages) == 2 && forall n :: 0 <= n < 2 ==> |pages[n].attempts| == 1
    ensures CountRows(StoredBy(pages), coin, now) == 2
  {
    var world := OnBothPages(a, b, letter, purge);
    var first := OneGoodTry(maxRetries, PlanFor(world, 1), letter, now, coins);
    PagesSnoc(maxRetries, world, now, coins, [], first);
    assert [] + [first] == [first];
    var second := OneGoodTry(maxRetries, PlanFor(world, 2), letter, now, CoinsAfterOne(a, coins, now));
    PagesSnoc(maxRetries, world, now, coins, [first], second);
    pages := [first] + [second];
    assert pages[..1] == [first] && [first][..0] == [];
    DonePagesAreAccountable(maxRetries, world, now, coins, pages);
    SnapshotConservation(pages, maxRetries, coin, now);
    OneCarries(first.attempts, coin);
    OneCarries(second.attempts, coin);
    assert RunCommitsCarrying([first], coin) == 1;
    assert Successes([first]) == 1;
  }

  lemma OneCarries(attempts: seq<AttemptLog>, coin: string)
    requires |attempts| == 1 && Carries(attempts[0], coin)
    ensures CommitsCarrying(attempts, coin) == 1
  {
    assert attempts[..0] == [];
  }

  // -------------------------------------------------- what the gauge stands for

  /** Attempt k at page n stored its page. */
  predicate Stored(pages: seq<PageLog>, n: int, k: int) {
    0 <= n < |pages| && CommittedAt(pages[n].attempts, k)
  }

  predicate CommittedAt(attempts: seq<AttemptLog>, k: int) {
    0 <= k < |attempts| && attempts[k].committed
  }

  /** Try k would store its page if nothing had been stored before, and no earlier answer is empty. */
  ghost predicate Reaches(plan: nat -> Attempt, coins: CryptoTable.Table, now: int, k: nat) {
    Commits(plan(k), coins, now) && forall j: nat :: 1 <= j < k ==> plan(j).answer != Some([])
  }

  lemma {:induction false} UncommittedLeaveCoins(
      plan: nat -> Attempt, now: int, coins: CryptoTable.Table, attempts: seq<AttemptLog>, m: nat)
    requires Tried(plan, now, coins, attempts) && m <= |attempts|
    requires forall k :: 0 <= k < m ==> !CommittedAt(attempts, k)
    ensures CoinsAfter(plan, coins, now, m) == coins
  {
    if m > 0 {
      UncommittedLeaveCoins(plan, now, coins, attempts, m - 1);
      assert attempts[m - 1] == Logged(plan(m - 1 + 1), CoinsAfter(plan, coins, now, m - 1), now);
      assert !CommittedAt(attempts, m - 1);
    }
  }

  /** The first attempt that committed. */
  lemma {:induction false} FirstCommit(attempts: seq<AttemptLog>, k: nat) returns (first: nat)
    requires CommittedAt(attempts, k)
    ensures CommittedAt(attempts, first) && forall j :: 0 <= j < first ==> !CommittedAt(attempts, j)
  {
    if j :| 0 <= j < k && CommittedAt(attempts, j) {
      first := FirstCommit(attempts, j);
    } else {
      first := k;
    }
  }

  lemma StoredPageIsReached(
      maxRetries: nat, plan: nat -> Attempt, letter: Housekeeping, now: int, coins: CryptoTable.Table,
      p: PageLog, k: nat)
    returns (first: nat)
    requires PageDone(maxRetries, plan, letter, now, coins, p) && CommittedAt(p.attempts, k)
    ensures 1 <= first <= maxRetries && Reaches(plan, coins, now, first)
  {
    var i := FirstCommit(p.attempts, k);
    first := i + 1;
    UncommittedLeaveCoins(plan, now, coins, p.attempts, i);
    assert p.attempts[i] == Logged(plan(i + 1), CoinsAfter(plan, coins, now, i), now);
    forall j: nat | 1 <= j < first
      ensures plan(j).answer != Some([])
    {
      assert p.attempts[j - 1] == Logged(plan(j - 1 + 1), CoinsAfter(plan, coins, now, j - 1), now);
      assert p.attempts[j - 1].result.Err?;
    }
  }

  lemma UncommittedTry(plan: nat -> Attempt, now: int, coins: CryptoTable.Table, attempts: seq<AttemptLog>, k: nat)
    requires Tried(plan, now, coins, attempts) && 1 <= k <= |attempts|
    requires forall i :: !CommittedAt(attempts, i)
    ensures !Commits(plan(k), coins, now)
    ensures attempts[k - 1].result.Ok? ==> plan(k).answer == Some([])
  {
    UncommittedLeaveCoins(plan, now, coins, attempts, k - 1);
    assert attempts[k - 1] == Logged(plan(k - 1 + 1), CoinsAfter(plan, coins, now, k - 1), now);
    assert !CommittedAt(attempts, k - 1);
  }

  lemma NotReachedPastEmpty(plan: nat -> Attempt, coins: CryptoTable.Table, now: int, m: nat, k: nat)
    requires 1 <= m < k && plan(m).answer == Some([])
    ensures !Reaches(plan, coins, now, k)
  {
  }

  lemma UnstoredPageIsNotReached(
      maxRetries: nat, plan: nat -> Attempt, letter: Housekeeping, now: int, coins: CryptoTable.Table,
      p: PageLog, k: nat)
    requires PageDone(maxRetries, plan, letter, now, coins, p) && 1 <= k <= maxRetries
    requires forall i :: !CommittedAt(p.attempts, i)
    ensures !Reaches(plan, coins, now, k)
  {
    if k <= |p.attempts| {
      UncommittedTry(plan, now, coins, p.attempts, k);
    } else {
      UncommittedTry(plan, now, coins, p.attempts, |p.attempts|);
      NotReachedPastEmpty(plan, coins, now, |p.attempts|, k);
    }
  }

  ghost predicate AnyCommitted(attempts: seq<AttemptLog>) {
    exists k :: CommittedAt(attempts, k)
  }

  ghost predicate AnyReached(maxRetries: nat, plan: nat -> Attempt, coins: CryptoTable.Table, now: int) {
    exists k: nat :: 1 <= k <= maxRetries && Reaches(plan, coins, now, k)
  }

  /** Some attempt stored its page. */
  ghost predicate AnythingStored(pages: seq<PageLog>) {
    exists n, k :: Stored(pages, n, k)
  }

  /** The world offers the run a page to store, seen from the coins before the run. */
  ghost predicate AnythingReachable(maxRetries: nat, world: World, coins: CryptoTable.Table, now: int, pages: nat) {
    exists n: nat, k: nat :: 1 <= n <= pages && 1 <= k <= maxRetries && Reaches(PlanFor(world, n), coins, now, k)
  }

  lemma {:induction false} NothingStoredLeavesAll(
      maxRetries: nat, world: World, now: int, coins: CryptoTable.Table, pages: seq<PageLog>)
    requires PagesDone(maxRetries, world, now, coins, pages) && !AnythingStored(pages)
    ensures RunCoins(world, now, coins, pages) == coins && StoredBy(pages) == []
  {
    if pages != [] {
      var n := |pages| - 1;
      var front, attempts := pages[..n], pages[n].attempts;
      assert forall m, k :: Stored(front, m, k) ==> Stored(pages, m, k);
      NothingStoredLeavesAll(maxRetries, world, now, coins, front);
      assert forall k :: CommittedAt(attempts, k) ==> Stored(pages, n, k);
      UncommittedLeaveCoins(PlanFor(world, n + 1), now, coins, attempts, |attempts|);
      UncommittedStoreNothing(PlanFor(world, n + 1), now, coins, attempts);
    }
  }

  lemma UncommittedStoreNothing(plan: nat -> Attempt, now: int, coins: CryptoTable.Table, attempts: seq<AttemptLog>)
    requires Tried(plan, now, coins, attempts) && forall k :: !CommittedAt(attempts, k)
    ensures StoredByAttempts(attempts) == []
  {
    TriedIsFaithful(plan, now, coins, attempts);
    forall k | 0 <= k < |attempts|
      ensures attempts[k].stored == []
    {
      assert !CommittedAt(attempts, k) && Faithful(attempts[k], now);
    }
    NothingIn(attempts);
  }

  lemma {:induction false} NothingIn(attempts: seq<AttemptLog>)
    requires forall k :: 0 <= k < |attempts| ==> attempts[k].stored == []
    ensures StoredByAttempts(attempts) == []
  {
    if attempts != [] {
      NothingIn(attempts[..|attempts| - 1]);
    }
  }

  lemma PageStoredIffReached(
      maxRetries: nat, plan: nat -> Attempt, letter: Housekeeping, now: int, coins: CryptoTable.Table, p: PageLog)
    requires PageDone(maxRetries, plan, letter, now, coins, p)
    ensures AnyCommitted(p.attempts) <==> AnyReached(maxRetries, plan, coins, now)
  {
    if k :| CommittedAt(p.attempts, k) {
      var first := StoredPageIsReached(maxRetries, plan, letter, now, coins, p, k);
      assert Reaches(plan, coins, now, first);
    } else {
      forall k: nat | 1 <= k <= maxRetries
        ensures !Reaches(plan, coins, now, k)
      {
        UnstoredPageIsNotReached(maxRetries, plan, letter, now, coins, p, k);
      }
    }
  }

  lemma StoredInFront(pages: seq<PageLog>)
    requires pages != []
    ensures AnythingStored(pages)
      <==> (AnythingStored(pages[..|pages| - 1]) || AnyCommitted(pages[|pages| - 1].attempts))
  {
    var n := |pages| - 1;
    assert forall m, k ::
      (Stored(pages, m, k) <==> Stored(pages[..n], m, k) || (m == n && CommittedAt(pages[n].attempts, k)));
    if k :| CommittedAt(pages[n].attempts, k) {
      assert Stored(pages, n, k);
    }
    if m, k :| Stored(pages[..n], m, k) {
      assert Stored(pages, m, k);
    }
  }

  lemma ReachableInFront(maxRetries: nat, world: World, coins: CryptoTable.Table, now: int, pages: nat)
    requires pages >= 1
    ensures AnythingReachable(maxRetries, world, coins, now, pages)
      <==> (AnythingReachable(maxRetries, world, coins, now, pages - 1)
        || AnyReached(maxRetries, PlanFor(world, pages), coins, now))
  {
  }

  lemma {:induction false} StoredIffReachable(
      maxRetries: nat, world: World, now: int, coins: CryptoTable.Table, pages: seq<PageLog>)
    requires PagesDone(maxRetries, world, now, coins, pages)
    ensures AnythingStored(pages) <==> AnythingReachable(maxRetries, world, coins, now, |pages|)
  {
    if pages != [] {
      var n := |pages| - 1;
      var front := pages[..n];
      StoredIffReachable(maxRetries, world, now, coins, front);
      StoredInFront(pages);
      ReachableInFront(maxRetries, world, coins, now, |pages|);
      if !AnythingStored(front) {
        NothingStoredLeavesAll(maxRetries, world, now, coins, front);
        PageStoredIffReached(maxRetries, PlanFor(world, n + 1), world.letters(n + 1), now, coins, pages[n]);
      }
    }
  }

  /**
   A run that sets the gauges has stored a page if and only if, on the coins it found,
   some try at some page would commit and no answer before it at that page is empty.
   Otherwise it has changed neither coins nor history, but for the purge.
   */
  lemma GaugeMeansStoredIff(
      totalPages: nat, maxRetries: nat, world: World, before: Tables, start: int, r: Report, after: Tables, end: int)
    requires RunDone(totalPages, maxRetries, world, before, start, r, after, end) && r.ending != DeadLetterLost
    ensures AnythingStored(r.pages)
      <==> exists n: nat, k: nat ::
             1 <= n <= totalPages && 1 <= k <= maxRetries && Reaches(PlanFor(world, n), before.coins, start, k)
    ensures !AnythingStored(r.pages) ==> after.coins == before.coins && StoredBy(r.pages) == []
  {
    StoredIffReachable(maxRetries, world, start, before.coins, r.pages);
    if !AnythingStored(r.pages) {
      NothingStoredLeavesAll(maxRetries, world, start, before.coins, r.pages);
    }
  }

  lemma {:induction false} EmptyPagesSucceed(
      maxRetries: nat, world: World, now: int, coins: CryptoTable.Table, pages: seq<PageLog>)
    requires PagesDone(maxRetries, world, now, coins, pages)
    requires forall n, k :: world.attempts(n, k).answer == Some([])
    ensures Successes(pages) == |pages| && TotalUpdated(pages) == 0
    ensures pages != [] ==> Succeeded(pages[|pages| - 1])
  {
    if pages != [] {
      var n := |pages| - 1;
      EmptyPagesSucceed(maxRetries, world, now, coins, pages[..n]);
      var plan, before := PlanFor(world, n + 1), RunCoins(world, now, coins, pages[..n]);
      var last: nat := |pages[n].attempts| - 1;
      assert LastOf(pages[n]) == Logged(plan(last + 1), CoinsAfter(plan, before, now, last), now);
    }
  }

  /**
   With a provider that answers empty lists every page counts as a success, no dead letter is
   written, and nothing is stored.
   */
  lemma EmptyAnswersLookLikeSuccess(
      totalPages: nat, maxRetries: nat, world: World, before: Tables, start: int, r: Report, after: Tables, end: int)
    requires RunDone(totalPages, maxRetries, world, before, start, r, after, end)
    requires forall n, k :: world.attempts(n, k).answer == Some([])
    ensures r.ending != DeadLetterLost && r.totalUpdated == 0
    ensures Successes(r.pages) == totalPages && after.deadLetters == before.deadLetters
    ensures !AnythingStored(r.pages) && after.coins == before.coins
  {
    EmptyPagesSucceed(maxRetries, world, start, before.coins, r.pages);
    RunAccounting(totalPages, maxRetries, world, before, start, r, after, end);
    GaugeMeansStoredIff(totalPages, maxRetries, world, before, start, r, after, end);
    assert forall n: nat, k: nat :: PlanFor(world, n)(k).answer == Some([]);
  }

  lemma {:induction false} NothingAnswered(
      maxRetries: nat, world: World, now: int, coins: CryptoTable.Table, pages: seq<PageLog>)
    requires PagesDone(maxRetries, world, now, coins, pages)
    requires forall n, k :: world.attempts(n, k).answer.None?
    ensures Successes(pages) == 0 && TotalUpdated(pages) == 0
  {
    if pages != [] {
      var n := |pages| - 1;
      NothingAnswered(maxRetries, world, now, coins, pages[..n]);
      var k: nat := |pages[n].attempts| - 1;
      var before := RunCoins(world, now, coins, pages[..n]);
      assert LastOf(pages[n]) == Logged(PlanFor(world, n + 1)(k + 1),
        CoinsAfter(PlanFor(world, n + 1), before, now, k), now);
    }
  }

  /**
   With the provider down and dead letters going through, the run is not cut short, so the
   gauge is set, and no page succeeded.
   */
  lemma OutageLooksLikeSuccess(
      totalPages: nat, maxRetries: nat, world: World, before: Tables, start: int, r: Report, after: Tables, end: int)
    requires RunDone(totalPages, maxRetries, world, before, start, r, after, end)
    requires forall n, k :: world.attempts(n, k).answer.None?
    requires forall n :: world.letters(n).ok
    ensures r.ending != DeadLetterLost && r.totalUpdated == 0
    ensures Successes(r.pages) == 0 && |after.deadLetters| == |before.deadLetters| + totalPages
  {
    NothingAnswered(maxRetries, world, start, before.coins, r.pages);
    RunAccounting(totalPages, maxRetries, world, before, start, r, after, end);
  }

  // ------------------------------------------------------- the slowest run

  const SOME_UUID: Uuid := seq(36, i => '0')

  /** Every attempt fails at the last moment, every dead letter and the purge take as long as they may. */
  function SlowWorld(l: Limits): World {
    var slow := Attempt(None, (i: nat) => SOME_UUID, (i: nat) => 0, false, 0, l.attempt, "timeout");
    World((n: nat, k: nat) => slow, (n: nat) => Housekeeping(true, l.letter), Housekeeping(true, l.purge), true)
  }

  lemma SlowPageDone(l: Limits, now: int, coins: CryptoTable.Table, page: nat)
    requires l.maxRetries >= 1
    ensures PageDone(l.maxRetries, PlanFor(SlowWorld(l), page), SlowWorld(l).letters(page), now, coins, SlowPage(l))
  {
  }

  lemma {:induction false} SlowPagesDone(l: Limits, now: int, coins: CryptoTable.Table, n: nat)
    requires l.maxRetries >= 1
    ensures PagesDone(l.maxRetries, SlowWorld(l), now, coins, SlowPages(l, n))
  {
    if n > 0 {
      var world, front := SlowWorld(l), SlowPages(l, n - 1);
      SlowPagesDone(l, now, coins, n - 1);
      assert PageDone(l.maxRetries, PlanFor(world, n), world.letters(n), now, RunCoins(world, now, coins, front),
        SlowPage(l)) by {
        SlowPageDone(l, now, RunCoins(world, now, coins, front), n);
      }
      PagesSnoc(l.maxRetries, world, now, coins, front, SlowPage(l));
      SlowPagesGrow(l, n);
    }
  }

  lemma SlowPagesGrow(l: Limits, n: nat)
    requires n > 0
    ensures SlowPages(l, n) == SlowPages(l, n - 1) + [SlowPage(l)]
  {
  }

  /** From any tables, in the slow world, a run takes exactly the worst run's time. */
  lemma WorstRunIsARun(l: Limits, before: Tables, start: int) returns (r: Report, after: Tables, end: int)
    requires l.maxRetries >= 1 && Injective(before.coins)
    ensures Bounded(l, SlowWorld(l)) && r.pages == SlowRun(l)
    ensures RunDone(l.pages, l.maxRetries, SlowWorld(l), before, start, r, after, end)
    ensures end == start + WorstRun(l)
  {
    var world, pages := SlowWorld(l), SlowRun(l);
    SlowPagesDone(l, start, before.coins, l.pages);
    var middle := Grown(before, RunCoins(world, start, before.coins, pages), StoredBy(pages),
      LettersWritten(pages, false));
    r := Report(Completed, pages, TotalUpdated(pages));
    after := middle.(history := Purged(middle.history, start + PagesTime(pages) - Days(KEEP_DAYS)));
    end := start + PagesTime(pages) + l.purge;
    RunEnds(l.pages, l.maxRetries, world, before, start, middle, false, r, after, end);
    WorstRunReached(l);
  }
}
