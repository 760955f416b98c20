/**
 The scheduled refresh: lock, pages with retries and backoff, dead letters, purge.
 The world outside (provider answers, failing commits, a failing Redis, elapsed
 time) comes in as arbitrary Attempts; what a run did goes out as a log whose
 meaning RefreshLog works out. Instants are milliseconds.
 */
module RefreshWorker {
  import opened Wrappers
  import opened CacheKeys
  import opened CryptoTable
  import opened PriceHistory
  import opened Database
  import opened RefreshLog
  import opened WriteThrough
  import Redis

  const KEEP_DAYS: int := 90

  /** Whether a housekeeping transaction goes through, and how long it takes. */
  datatype Housekeeping = Housekeeping(ok: bool, duration: nat)

  /**
   What a run meets: its attempts by page and try, its dead letters by page, its purge, and
   whether Redis takes the last DEL.
   */
  datatype World = World(
    attempts: (nat, nat) -> Attempt,
    letters: nat -> Housekeeping,
    purge: Housekeeping,
    unlocks: bool)

  datatype Ending = LockHeld | Completed | DeadLetterLost | PurgeFailed

  datatype Report = Report(ending: Ending, pages: seq<PageLog>, totalUpdated: nat)

  /** The worker's gauges: instant of the last success, coins updated and duration of that run. */
  datatype Gauges = Gauges(lastSuccess: int, coinsUpdated: nat, elapsed: nat)

  function CoinsOf(raw: seq<RawCoin>, now: int): (r: seq<CryptoTable.Coin>)
    ensures |r| == |raw|
  {
    seq(|raw|, i requires 0 <= i < |raw| => CryptoTable.Coin(raw[i].id, raw[i].market, now, None))
  }

  function Minted(a: Attempt, n: nat): (r: seq<Uuid>)
    ensures |r| == n
  {
    seq<Uuid>(n, i requires 0 <= i < n => a.minted(i))
  }

  /** The coins table after the attempt's upsert, if the statement goes through. */
  function Upserted(a: Attempt, coins: CryptoTable.Table, now: int): Option<CryptoTable.Table>
    requires a.answer.Some?
  {
    var raw := a.answer.value;
    Upsert(coins, Stamped(CoinsOf(raw, now), a.clock), Minted(a, |raw|))
  }

  /** The attempt's transaction reaches its commit and the commit succeeds. */
  predicate Commits(a: Attempt, coins: CryptoTable.Table, now: int) {
    a.answer.Some? && a.answer.value != [] && Upserted(a, coins, now).Some? && a.commits
  }

  function CoinsAfterOne(a: Attempt, coins: CryptoTable.Table, now: int): CryptoTable.Table {
    if Commits(a, coins, now) then Upserted(a, coins, now).value else coins
  }

  function AfterCommit(a: Attempt, tables: Tables, now: int): Tables
    requires Commits(a, tables.coins, now)
  {
    tables.(coins := CoinsAfterOne(a, tables.coins, now), history := tables.history + Snapshots(a.answer.value, now))
  }

  /** Redis commands a page of n coins takes: two SETEX per coin, two pattern deletes. */
  function CommandsFor(n: nat): nat {
    2 * n + 2
  }

  /** The rows from n on are the priced coins of the answer at that instant, and no others. */
  ghost predicate AddsTheCoins(raw: seq<RawCoin>, now: int, history: seq<Snapshot>, n: nat) {
    && n <= |history|
    && forall row :: row in history[n..] <==> row.recordedAt == now && Records(raw, row)
  }

  lemma CommitAddsTheCoins(a: Attempt, tables: Tables, now: int)
    requires Commits(a, tables.coins, now)
    ensures AddsTheCoins(a.answer.value, now, AfterCommit(a, tables, now).history, |tables.history|)
  {
    var history := AfterCommit(a, tables, now).history;
    assert history[|tables.history|..] == Snapshots(a.answer.value, now);
    forall row
      ensures row in history[|tables.history|..] <==> row.recordedAt == now && Records(a.answer.value, row)
    {
      SnapshotsAreTheCoins(a.answer.value, now, row);
    }
  }

  /** Old coins keep their UUIDs, and no two coins share one. */
  ghost predicate SameCoins(before: CryptoTable.Table, after: CryptoTable.Table) {
    && before.Keys <= after.Keys
    && Injective(after)
    && forall e :: e in before ==> after[e].id == before[e].id
  }

  /** Whether the page is there, can be stored, and its transaction goes through. */
  ghost predicate Storable(a: Attempt, coins: CryptoTable.Table) {
    && a.answer.Some? && a.answer.value != [] && a.commits
    && Acceptable(coins, a.answer.value, a.minted)
  }

  lemma CommitsIffStorable(a: Attempt, coins: CryptoTable.Table, now: int)
    ensures Commits(a, coins, now) <==> Storable(a, coins)
  {
    if a.answer.Some? {
      var raw := a.answer.value;
      UpsertAccepts(coins, raw, Always(now), a.clock, a.minted, Stamped(CoinsOf(raw, now), a.clock), Minted(a, |raw|));
    }
  }

  lemma CommittedRows(a: Attempt, tables: Tables, now: int)
    requires Commits(a, tables.coins, now) && Injective(tables.coins)
    ensures DistinctRaw(a.answer.value)
    ensures StoredAs(tables.coins, a.answer.value, Always(now), a.clock, a.minted, AfterCommit(a, tables, now).coins)
    ensures RowsMatch(a.answer.value, AfterCommit(a, tables, now).coins)
    ensures SameCoins(tables.coins, AfterCommit(a, tables, now).coins)
  {
    var raw := a.answer.value;
    var coins := Stamped(CoinsOf(raw, now), a.clock);
    var after := AfterCommit(a, tables, now).coins;
    UpsertRefreshes(tables.coins, coins, Minted(a, |raw|));
    UpsertStores(tables.coins, raw, Always(now), a.clock, a.minted, coins, Minted(a, |raw|));
    StoredRowsMatch(tables.coins, raw, Always(now), a.clock, a.minted, after);
    forall i, j | 0 <= i < j < |raw|
      ensures raw[i].id != raw[j].id
    {
      assert coins[i].externalId != coins[j].externalId;
    }
  }

  /** Every coin of the page reads back under both keys, and no list or top-mover page is cached. */
  ghost predicate PageReadable(store: Store, raw: seq<RawCoin>, table: CryptoTable.Table, now: int, at: int) {
    && (forall i :: 0 <= i < |raw| ==> raw[i].id in table && Readable(store, raw, table, i, now, at))
    && (forall k :: k in store ==> !Matches(LIST_PREFIX, k) && !Matches(MOVERS_PREFIX, k))
  }

  /** Keys outside the three families a page touches are as they were. */
  ghost predicate SameOutside(before: Store, after: Store) {
    forall k :: !Matches(DETAIL_PREFIX, k) && !Matches(LIST_PREFIX, k) && !Matches(MOVERS_PREFIX, k) ==>
      (k in after <==> k in before) && (k in after ==> after[k] == before[k])
  }

  lemma OnlyDetailsWritten(store: Store, raw: seq<RawCoin>, table: CryptoTable.Table, now: int, at: int, n: nat)
    requires n <= |raw| && forall i :: 0 <= i < |raw| ==> raw[i].id in table
    ensures SameOutside(store, Written(store, raw, table, now, at, n))
  {
    var after := Written(store, raw, table, now, at, n);
    forall k | !Matches(DETAIL_PREFIX, k) && !Matches(LIST_PREFIX, k) && !Matches(MOVERS_PREFIX, k)
      ensures (k in after <==> k in store) && (k in after ==> after[k] == store[k])
    {
      WrittenElsewhere(store, raw, table, now, at, n, k);
    }
  }

  lemma PublishedOutside(store: Store, raw: seq<RawCoin>, table: CryptoTable.Table, now: int, at: int, commands: nat)
    requires forall i :: 0 <= i < |raw| ==> raw[i].id in table
    ensures SameOutside(store, Published(store, raw, table, now, at, commands))
  {
    if commands >= 2 * |raw| {
      OnlyDetailsWritten(store, raw, table, now, at, |raw|);
    } else {
      OnlyDetailsWritten(store, raw, table, now, at, commands / 2);
      PatternsSelectFamilies(Detail(table[raw[commands / 2].id].id));
    }
  }

  lemma PublishedIsReadable(store: Store, raw: seq<RawCoin>, table: CryptoTable.Table, now: int, at: int, commands: nat)
    requires DistinctRaw(raw) && Injective(table) && RowsMatch(raw, table)
    ensures commands >= CommandsFor(|raw|) ==>
      PageReadable(Published(store, raw, table, now, at, commands), raw, table, now, at)
  {
    var full := Written(store, raw, table, now, at, |raw|);
    WrittenIsReadable(store, raw, table, now, at, |raw|);
    forall i | 0 <= i < |raw|
      ensures Readable(Invalidated(full), raw, table, i, now, at)
    {
      InvalidationSparesDetails(full, raw, table, i, now, at);
    }
  }

  /** What an attempt comes to, with those coins in the table. */
  function Logged(a: Attempt, coins: CryptoTable.Table, now: int): AttemptLog {
    if a.answer.None? then AttemptLog(a.answer, false, [], Err(a.error), a.duration)
    else if a.answer.value == [] then AttemptLog(a.answer, false, [], Ok(0), a.duration)
    else if !Commits(a, coins, now) then AttemptLog(a.answer, false, [], Err(a.error), a.duration)
    else AttemptLog(a.answer, true, Snapshots(a.answer.value, now),
      if a.redisCommands >= CommandsFor(|a.answer.value|) then Ok(|a.answer.value|) else Err(a.error), a.duration)
  }

  lemma LoggedIsFaithful(a: Attempt, coins: CryptoTable.Table, now: int)
    ensures Faithful(Logged(a, coins, now), now)
  {
    if Commits(a, coins, now) {
      var raw := a.answer.value;
      var dicts := Stamped(CoinsOf(raw, now), a.clock);
      forall i, j | 0 <= i < j < |raw|
        ensures raw[i].id != raw[j].id
      {
        assert dicts[i].externalId != dicts[j].externalId;
      }
    }
  }

  /** The coins after the first k attempts of a plan. */
  function CoinsAfter(plan: nat -> Attempt, coins: CryptoTable.Table, now: int, k: nat): CryptoTable.Table {
    if k == 0 then coins else CoinsAfterOne(plan(k), CoinsAfter(plan, coins, now, k - 1), now)
  }

  lemma {:induction false} CoinsKeepIdentity(plan: nat -> Attempt, coins: CryptoTable.Table, now: int, k: nat)
    requires Injective(coins)
    ensures SameCoins(coins, CoinsAfter(plan, coins, now, k))
  {
    if k > 0 {
      CoinsKeepIdentity(plan, coins, now, k - 1);
      var before := CoinsAfter(plan, coins, now, k - 1);
      if Commits(plan(k), before, now) {
        CommittedRows(plan(k), Tables(before, [], []), now);
      }
    }
  }

  /** The attempts made so far are the first ones planned, each on the coins its predecessors left. */
  ghost predicate Tried(plan: nat -> Attempt, now: int, coins: CryptoTable.Table, attempts: seq<AttemptLog>) {
    forall k: nat :: k < |attempts| ==> attempts[k] == Logged(plan(k + 1), CoinsAfter(plan, coins, now, k), now)
  }

  lemma TriedIsFaithful(plan: nat -> Attempt, now: int, coins: CryptoTable.Table, attempts: seq<AttemptLog>)
    requires Tried(plan, now, coins, attempts)
    ensures AttemptsFaithful(attempts, now)
  {
    forall k: nat | k < |attempts|
      ensures Faithful(attempts[k], now)
    {
      LoggedIsFaithful(plan(k + 1), CoinsAfter(plan, coins, now, k), now);
    }
  }

  lemma SumsSnoc(attempts: seq<AttemptLog>, log: AttemptLog)
    ensures Durations(attempts + [log]) == Durations(attempts) + log.duration
    ensures StoredByAttempts(attempts + [log]) == StoredByAttempts(attempts) + log.stored
  {
    assert (attempts + [log])[..|attempts|] == attempts;
  }

  /** Tables with those coins, and rows and dead letters appended. */
  function Grown(before: Tables, coins: CryptoTable.Table, rows: seq<Snapshot>, letters: seq<DeadLetter>): Tables {
    Tables(coins, before.history + rows, before.deadLetters + letters)
  }

  lemma Regroup<T>(a: seq<T>, b: seq<T>, c: seq<T>)
    ensures (a + b) + c == a + (b + c)
  {
  }

  lemma GrownTwice(
      before: Tables, coins: CryptoTable.Table, rows: seq<Snapshot>, letters: seq<DeadLetter>,
      moreCoins: CryptoTable.Table, moreRows: seq<Snapshot>, moreLetters: seq<DeadLetter>)
    ensures Grown(Grown(before, coins, rows, letters), moreCoins, moreRows, moreLetters)
      == Grown(before, moreCoins, rows + moreRows, letters + moreLetters)
  {
    Regroup(before.history, rows, moreRows);
    Regroup(before.deadLetters, letters, moreLetters);
  }

  /** What the retry loop has achieved after some attempts. */
  ghost predicate AttemptsSoFar(
      plan: nat -> Attempt, now: int, before: Tables, attempts: seq<AttemptLog>, after: Tables)
  {
    && Tried(plan, now, before.coins, attempts)
    && after == Grown(before, CoinsAfter(plan, before.coins, now, |attempts|), StoredByAttempts(attempts), [])
  }

  lemma AttemptsGrow(
      plan: nat -> Attempt, now: int, before: Tables, attempts: seq<AttemptLog>, middle: Tables,
      log: AttemptLog, after: Tables)
    requires AttemptsSoFar(plan, now, before, attempts, middle)
    requires log == Logged(plan(|attempts| + 1), middle.coins, now)
    requires after == Grown(middle, CoinsAfterOne(plan(|attempts| + 1), middle.coins, now), log.stored, [])
    ensures AttemptsSoFar(plan, now, before, attempts + [log], after)
    ensures Durations(attempts + [log]) == Durations(attempts) + log.duration
  {
    SumsSnoc(attempts, log);
    assert after == Grown(before, after.coins, StoredByAttempts(attempts + [log]), []) by {
      GrownTwice(before, middle.coins, StoredByAttempts(attempts), [], after.coins, log.stored, []);
    }
    TriedSnoc(plan, now, before.coins, attempts, log);
  }

  lemma TriedSnoc(plan: nat -> Attempt, now: int, coins: CryptoTable.Table, attempts: seq<AttemptLog>, log: AttemptLog)
    requires Tried(plan, now, coins, attempts)
    requires log == Logged(plan(|attempts| + 1), CoinsAfter(plan, coins, now, |attempts|), now)
    ensures Tried(plan, now, coins, attempts + [log])
  {
  }

  /** The retry loop is over: it worked, or there are no tries left. */
  lemma AttemptsEnd(
      maxRetries: nat, plan: nat -> Attempt, letter: Housekeeping, now: int, before: Tables,
      attempts: seq<AttemptLog>, middle: Tables, page: nat, lost: bool, after: Tables)
    requires AttemptsSoFar(plan, now, before, attempts, middle) && 1 <= |attempts| <= maxRetries
    requires forall k :: 0 <= k < |attempts| - 1 ==> attempts[k].result.Err?
    requires attempts[|attempts| - 1].result.Err? ==> |attempts| == maxRetries
    requires after == Grown(middle, middle.coins, [],
      if lost then [] else LettersFor(page, PageLog(attempts, letter.duration)))
    ensures var p := PageLog(attempts, letter.duration);
      && PageDone(maxRetries, plan, letter, now, before.coins, p)
      && after == Grown(before, CoinsAfter(plan, before.coins, now, |attempts|), StoredByAttempts(attempts),
           if lost then [] else LettersFor(page, p))
  {
    var letters := if lost then [] else LettersFor(page, PageLog(attempts, letter.duration));
    var stored := StoredByAttempts(attempts);
    GrownTwice(before, middle.coins, stored, [], middle.coins, [], letters);
    assert stored + [] == stored && [] + letters == letters;
  }

  /** The dead letter a page calls for, if any. */
  function LettersFor(page: nat, p: PageLog): seq<DeadLetter>
    requires p.attempts != []
  {
    if LastOf(p).result.Err? then [DeadLetter(page, Shorten(LastOf(p).result.error))] else []
  }

  /** A finished page: settled, and what the plan makes of those coins. */
  ghost predicate PageDone(
      maxRetries: nat, plan: nat -> Attempt, letter: Housekeeping, now: int, coins: CryptoTable.Table, p: PageLog) {
    Settled(p, maxRetries) && Tried(plan, now, coins, p.attempts) && p.letterDuration == letter.duration
  }

  /** The attempts planned for one page. */
  function PlanFor(world: World, page: nat): nat -> Attempt {
    (k: nat) => world.attempts(page, k)
  }

  /** The coins after those pages of a run. */
  function RunCoins(world: World, now: int, coins: CryptoTable.Table, pages: seq<PageLog>): CryptoTable.Table {
    if pages == [] then coins
    else
      var n := |pages| - 1;
      CoinsAfter(PlanFor(world, n + 1), RunCoins(world, now, coins, pages[..n]), now, |pages[n].attempts|)
  }

  /** The pages of a run so far: each done on the coins the pages before it left. */
  ghost predicate PagesDone(maxRetries: nat, world: World, now: int, coins: CryptoTable.Table, pages: seq<PageLog>) {
    pages != [] ==>
      var n := |pages| - 1;
      && PagesDone(maxRetries, world, now, coins, pages[..n])
      && PageDone(maxRetries, PlanFor(world, n + 1), world.letters(n + 1), now,
        RunCoins(world, now, coins, pages[..n]), pages[n])
  }

  lemma {:induction false} RunKeepsIdentity(world: World, now: int, coins: CryptoTable.Table, pages: seq<PageLog>)
    requires Injective(coins)
    ensures SameCoins(coins, RunCoins(world, now, coins, pages))
  {
    if pages != [] {
      var n := |pages| - 1;
      RunKeepsIdentity(world, now, coins, pages[..n]);
      CoinsKeepIdentity(PlanFor(world, n + 1), RunCoins(world, now, coins, pages[..n]), now, |pages[n].attempts|);
    }
  }

  lemma {:induction false} PagesSettled(
      maxRetries: nat, world: World, now: int, coins: CryptoTable.Table, pages: seq<PageLog>)
    requires PagesDone(maxRetries, world, now, coins, pages)
    ensures AllSettled(pages, maxRetries)
  {
    if pages != [] {
      var front := pages[..|pages| - 1];
      PagesSettled(maxRetries, world, now, coins, front);
      assert forall m :: 0 <= m < |front| ==> front[m] == pages[m];
    }
  }

  lemma {:induction false} PagesFaithful(
      maxRetries: nat, world: World, now: int, coins: CryptoTable.Table, pages: seq<PageLog>)
    requires PagesDone(maxRetries, world, now, coins, pages)
    ensures RunFaithful(pages, now)
  {
    if pages != [] {
      var n := |pages| - 1;
      var front := pages[..n];
      PagesFaithful(maxRetries, world, now, coins, front);
      TriedIsFaithful(PlanFor(world, n + 1), now, RunCoins(world, now, coins, front), pages[n].attempts);
      assert forall m :: 0 <= m < n ==> front[m] == pages[m];
    }
  }

  /** What RefreshLog's theorems ask of a run holds of every run of the worker. */
  lemma DonePagesAreAccountable(maxRetries: nat, world: World, now: int, coins: CryptoTable.Table, pages: seq<PageLog>)
    requires PagesDone(maxRetries, world, now, coins, pages)
    ensures AllSettled(pages, maxRetries) && RunFaithful(pages, now)
  {
    PagesSettled(maxRetries, world, now, coins, pages);
    PagesFaithful(maxRetries, world, now, coins, pages);
  }

  /** Every coin has as many rows for the run among those stored as commits of its pages carried it. */
  ghost predicate Conserves(pages: seq<PageLog>, stored: seq<Snapshot>, now: int) {
    forall coin: string :: CountRows(stored, coin, now) == RunCommitsCarrying(pages, coin)
  }

  lemma DonePagesConserve(maxRetries: nat, world: World, now: int, coins: CryptoTable.Table, pages: seq<PageLog>)
    requires PagesDone(maxRetries, world, now, coins, pages)
    ensures Conserves(pages, StoredBy(pages), now)
  {
    DonePagesAreAccountable(maxRetries, world, now, coins, pages);
    forall coin: string
      ensures CountRows(StoredBy(pages), coin, now) == RunCommitsCarrying(pages, coin)
    {
      SnapshotConservation(pages, maxRetries, coin, now);
    }
  }

  lemma PagesSnoc(maxRetries: nat, world: World, now: int, coins: CryptoTable.Table, pages: seq<PageLog>, p: PageLog)
    requires PagesDone(maxRetries, world, now, coins, pages)
    requires PageDone(maxRetries, PlanFor(world, |pages| + 1), world.letters(|pages| + 1), now,
      RunCoins(world, now, coins, pages), p)
    ensures PagesDone(maxRetries, world, now, coins, pages + [p])
    ensures RunCoins(world, now, coins, pages + [p])
      == CoinsAfter(PlanFor(world, |pages| + 1), RunCoins(world, now, coins, pages), now, |p.attempts|)
  {
    assert (pages + [p])[..|pages|] == pages;
  }

  lemma PageSumsSnoc(pages: seq<PageLog>, p: PageLog)
    ensures PagesTime(pages + [p]) == PagesTime(pages) + PageTime(p)
    ensures StoredBy(pages + [p]) == StoredBy(pages) + StoredByAttempts(p.attempts)
    ensures TotalUpdated(pages + [p]) == TotalUpdated(pages) + if Succeeded(p) then LastOf(p).result.value else 0
  {
    assert (pages + [p])[..|pages|] == pages;
  }

  /** The run ended at a page that failed for good and whose dead letter did not go through. */
  ghost predicate LostLetter(world: World, pages: seq<PageLog>) {
    pages != [] && !Succeeded(pages[|pages| - 1]) && !world.letters(|pages|).ok
  }

  /** The dead letters written: all that are due, save the one whose write failed. */
  function LettersWritten(pages: seq<PageLog>, lost: bool): seq<DeadLetter> {
    DeadLettersDue(if lost && pages != [] then pages[..|pages| - 1] else pages)
  }

  lemma LettersSnoc(pages: seq<PageLog>, p: PageLog, lost: bool)
    requires p.attempts != []
    ensures LettersWritten(pages + [p], lost) ==
      LettersWritten(pages, false) + if lost then [] else LettersFor(|pages| + 1, p)
  {
    assert (pages + [p])[..|pages|] == pages;
  }

  /** What the page loop has achieved after some pages. */
  ghost predicate PagesSoFar(
      maxRetries: nat, world: World, now: int, before: Tables, pages: seq<PageLog>, lost: bool, after: Tables)
  {
    && PagesDone(maxRetries, world, now, before.coins, pages)
    && (lost ==> LostLetter(world, pages))
    && after == Grown(before, RunCoins(world, now, before.coins, pages), StoredBy(pages), LettersWritten(pages, lost))
  }

  lemma PagesGrow(
      maxRetries: nat, world: World, now: int, before: Tables, pages: seq<PageLog>, middle: Tables,
      p: PageLog, lost: bool, after: Tables)
    requires PagesSoFar(maxRetries, world, now, before, pages, false, middle)
    requires PageDone(maxRetries, PlanFor(world, |pages| + 1), world.letters(|pages| + 1), now, middle.coins, p)
    requires lost <==> LastOf(p).result.Err? && !world.letters(|pages| + 1).ok
    requires after == Grown(middle, CoinsAfter(PlanFor(world, |pages| + 1), middle.coins, now, |p.attempts|),
      StoredByAttempts(p.attempts), if lost then [] else LettersFor(|pages| + 1, p))
    ensures PagesSoFar(maxRetries, world, now, before, pages + [p], lost, after)
  {
    var coins := RunCoins(world, now, before.coins, pages);
    var more := if lost then [] else LettersFor(|pages| + 1, p);
    PagesSnoc(maxRetries, world, now, before.coins, pages, p);
    assert after == Grown(before, after.coins, StoredBy(pages + [p]), LettersWritten(pages + [p], lost)) by {
      PageSumsSnoc(pages, p);
      LettersSnoc(pages, p, lost);
      GrownTwice(before, coins, StoredBy(pages), LettersWritten(pages, false), after.coins,
        StoredByAttempts(p.attempts), more);
    }
  }

  /** The history that a run leaves: what its pages stored, then purged if the run was completed. */
  ghost predicate KeepsHistory(
      start: int, pages: seq<PageLog>, stored: seq<Snapshot>, before: seq<Snapshot>, purged: bool, after: seq<Snapshot>)
  {
    var grown := before + stored;
    && Conserves(pages, stored, start)
    && after == if purged then Purged(grown, start + PagesTime(pages) - Days(KEEP_DAYS)) else grown
  }

  /** The purge's share of a run's time: none if the run did not get that far. */
  function PurgeTime(r: Report, purge: Housekeeping): nat {
    if r.ending == DeadLetterLost then 0 else purge.duration
  }

  /** What a run that held the lock has done to the tables, and how long it took. */
  ghost predicate RunDone(
      totalPages: nat, maxRetries: nat, world: World, before: Tables, start: int, r: Report, after: Tables, end: int)
  {
    var lost := r.ending == DeadLetterLost;
    var purgedAt := start + PagesTime(r.pages);
    && r.ending != LockHeld
    && PagesDone(maxRetries, world, start, before.coins, r.pages)
    && KeepsHistory(start, r.pages, StoredBy(r.pages), before.history, r.ending == Completed, after.history)
    && r.totalUpdated == TotalUpdated(r.pages)
    && after.coins == RunCoins(world, start, before.coins, r.pages)
    && SameCoins(before.coins, after.coins)
    && after.deadLetters == before.deadLetters + LettersWritten(r.pages, lost)
    && end == purgedAt + PurgeTime(r, world.purge)
    && |r.pages| <= totalPages
    && (lost ==> LostLetter(world, r.pages))
    && (!lost ==> |r.pages| == totalPages && (world.purge.ok <==> r.ending == Completed))
  }

  /** A run that gets to its purge is a run done, and so is one that a lost dead letter cuts short. */
  lemma RunEnds(
      totalPages: nat, maxRetries: nat, world: World, before: Tables, start: int,
      middle: Tables, lost: bool, r: Report, after: Tables, end: int)
    requires Injective(before.coins) && |r.pages| <= totalPages && (!lost ==> |r.pages| == totalPages)
    requires r.ending == if lost then DeadLetterLost else if world.purge.ok then Completed else PurgeFailed
    requires r.totalUpdated == TotalUpdated(r.pages)
    requires PagesSoFar(maxRetries, world, start, before, r.pages, lost, middle)
    requires after == if r.ending == Completed
      then middle.(history := Purged(middle.history, start + PagesTime(r.pages) - Days(KEEP_DAYS))) else middle
    requires end == start + PagesTime(r.pages) + PurgeTime(r, world.purge)
    ensures RunDone(totalPages, maxRetries, world, before, start, r, after, end)
  {
    RunKeepsIdentity(world, start, before.coins, r.pages);
    DonePagesConserve(maxRetries, world, start, before.coins, r.pages);
  }

  /** Every page of a run that was not cut short shows up once: as a success or as a new dead letter. */
  lemma RunAccounting(
      totalPages: nat, maxRetries: nat, world: World, before: Tables, start: int, r: Report, after: Tables, end: int)
    requires RunDone(totalPages, maxRetries, world, before, start, r, after, end) && r.ending != DeadLetterLost
    ensures Successes(r.pages) + |after.deadLetters[|before.deadLetters|..]| == totalPages
    ensures forall n :: n in PagesOf(after.deadLetters[|before.deadLetters|..]) <==> Failed(r.pages, n)
  {
    DonePagesAreAccountable(maxRetries, world, start, before.coins, r.pages);
    EveryPageAccountedFor(r.pages, maxRetries);
    assert after.deadLetters[|before.deadLetters|..] == DeadLettersDue(r.pages);
  }

  /**
   The new dead letters of any run: one for each page that failed, in page order, with the first
   2000 characters of the last try's error; only the letter that cut the run short is missing.
   And the total is the number of coins on the pages that ended well.
   */
  lemma RunLetters(
      totalPages: nat, maxRetries: nat, world: World, before: Tables, start: int, r: Report, after: Tables, end: int)
    requires RunDone(totalPages, maxRetries, world, before, start, r, after, end)
    ensures |before.deadLetters| <= |after.deadLetters| && before.deadLetters <= after.deadLetters
    ensures var letters := after.deadLetters[|before.deadLetters|..];
      && InPageOrder(letters)
      && forall d :: d in letters <==>
           LetterFor(r.pages, d) && !(r.ending == DeadLetterLost && d.page == |r.pages|)
    ensures r.totalUpdated == |UpdatedCoins(r.pages)|
  {
    var lost := r.ending == DeadLetterLost;
    var written := if lost && r.pages != [] then r.pages[..|r.pages| - 1] else r.pages;
    DonePagesAreAccountable(maxRetries, world, start, before.coins, r.pages);
    TotalCountsCoins(r.pages, start);
    LettersAreTheFailures(written);
    assert after.deadLetters[|before.deadLetters|..] == DeadLettersDue(written);
    assert forall d :: LetterFor(written, d) <==> LetterFor(r.pages, d) && !(lost && d.page == |r.pages|);
  }

  lemma GrownAndPurged(
      before: seq<Snapshot>, stored: seq<Snapshot>, purged: bool, cutoff: int, after: seq<Snapshot>,
      coin: string, at: int)
    requires after == if purged then Purged(before + stored, cutoff) else before + stored
    requires cutoff <= at
    ensures CountRows(after, coin, at) == CountRows(before, coin, at) + CountRows(stored, coin, at)
  {
    CountRowsConcat(before, stored, coin, at);
    PurgeSparesTheRun(before + stored, cutoff, coin, at);
  }

  /** Try k at page n stored that coin at that price. */
  ghost predicate StoresRow(world: World, pages: seq<PageLog>, n: nat, k: nat, row: Snapshot) {
    && n < |pages| && k < |pages[n].attempts| && pages[n].attempts[k].committed
    && world.attempts(n + 1, k + 1).answer.Some? && Records(world.attempts(n + 1, k + 1).answer.value, row)
  }

  lemma {:induction false} AnswersAreTheWorlds(
      maxRetries: nat, world: World, now: int, coins: CryptoTable.Table, pages: seq<PageLog>, n: nat, k: nat)
    requires PagesDone(maxRetries, world, now, coins, pages) && n < |pages| && k < |pages[n].attempts|
    ensures pages[n].attempts[k].answer == world.attempts(n + 1, k + 1).answer
  {
    var last := |pages| - 1;
    if n < last {
      AnswersAreTheWorlds(maxRetries, world, now, coins, pages[..last], n, k);
    } else {
      var before := RunCoins(world, now, coins, pages[..last]);
      assert pages[n].attempts[k] ==
        Logged(PlanFor(world, n + 1)(k + 1), CoinsAfter(PlanFor(world, n + 1), before, now, k), now);
    }
  }

  /**
   The history after a run: the rows before it and the priced coins of the answers it committed,
   at the run's instant and the provider's prices, less, after a purge, whatever is 90 days older
   than the end of the pages. No other row, no other price, no other instant.
   */
  lemma RunRecords(
      totalPages: nat, maxRetries: nat, world: World, before: Tables, start: int, r: Report, after: Tables, end: int,
      row: Snapshot)
    requires RunDone(totalPages, maxRetries, world, before, start, r, after, end)
    ensures row in after.history <==>
      && (row in before.history || (row.recordedAt == start && exists n, k :: StoresRow(world, r.pages, n, k, row)))
      && (r.ending == Completed ==> row.recordedAt >= start + PagesTime(r.pages) - 90 * 86_400_000)
  {
    PagesRecord(maxRetries, world, start, before.coins, r.pages, row);
    MembersGrown(before.history, StoredBy(r.pages), start + PagesTime(r.pages) - Days(KEEP_DAYS), row);
  }

  lemma MembersGrown(before: seq<Snapshot>, stored: seq<Snapshot>, cutoff: int, row: Snapshot)
    ensures row in before + stored <==> row in before || row in stored
    ensures row in Purged(before + stored, cutoff) <==> (row in before || row in stored) && row.recordedAt >= cutoff
  {
    PurgedMembers(before + stored, cutoff, row);
  }

  /** What the pages store is what the world's answers to their committed tries say. */
  lemma PagesRecord(
      maxRetries: nat, world: World, now: int, coins: CryptoTable.Table, pages: seq<PageLog>, row: Snapshot)
    requires PagesDone(maxRetries, world, now, coins, pages)
    ensures row in StoredBy(pages) <==> row.recordedAt == now && exists n, k :: StoresRow(world, pages, n, k, row)
  {
    DonePagesAreAccountable(maxRetries, world, now, coins, pages);
    StoredRowsAreTheCoins(pages, now, row);
    forall n: nat, k: nat | n < |pages| && k < |pages[n].attempts|
      ensures RecordedOn(pages, n, k, row) <==> StoresRow(world, pages, n, k, row)
    {
      AnswersAreTheWorlds(maxRetries, world, now, coins, pages, n, k);
    }
    RecordedIffStored(world, pages, row);
  }

  lemma RecordedIffStored(world: World, pages: seq<PageLog>, row: Snapshot)
    requires forall n: nat, k: nat :: n < |pages| && k < |pages[n].attempts| ==>
      (RecordedOn(pages, n, k, row) <==> StoresRow(world, pages, n, k, row))
    ensures (exists n, k :: RecordedOn(pages, n, k, row)) <==> exists n, k :: StoresRow(world, pages, n, k, row)
  {
    if n, k :| RecordedOn(pages, n, k, row) {
      assert StoresRow(world, pages, n, k, row);
    }
    if n: nat, k: nat :| StoresRow(world, pages, n, k, row) {
      assert RecordedOn(pages, n, k, row);
    }
  }

  /** With the worker's 90 days no question that the API lets through can tell that anything was purged. */
  lemma KeepDaysSuffice(d: int)
    ensures Transparent(KEEP_DAYS, d) <==> d <= 90
  {
    PurgeTransparencyIff(KEEP_DAYS, d);
  }

  /** The history of a coin at the run's time grows by the commits that carried the coin, purge included. */
  lemma RunHistory(
      start: int, pages: seq<PageLog>, stored: seq<Snapshot>, before: seq<Snapshot>, purged: bool, after: seq<Snapshot>,
      coin: string)
    requires KeepsHistory(start, pages, stored, before, purged, after)
    requires PagesTime(pages) <= Days(KEEP_DAYS)
    ensures CountRows(after, coin, start) == CountRows(before, coin, start) + RunCommitsCarrying(pages, coin)
  {
    GrownAndPurged(before, stored, purged, start + PagesTime(pages) - Days(KEEP_DAYS), after, coin, start);
  }

  // ------------------------------------------------------------- duration

  /** Every attempt, dead letter and purge of that world stays within the limits. */
  ghost predicate Bounded(l: Limits, world: World) {
    && (forall n, k :: world.attempts(n, k).duration <= l.attempt)
    && (forall n :: world.letters(n).duration <= l.letter)
    && world.purge.duration <= l.purge
  }

  lemma {:induction false} PagesFitLimits(
      l: Limits, world: World, now: int, coins: CryptoTable.Table, pages: seq<PageLog>)
    requires PagesDone(l.maxRetries, world, now, coins, pages) && Bounded(l, world)
    ensures forall n :: 0 <= n < |pages| ==> WithinLimits(l, pages[n])
  {
    if pages != [] {
      var n := |pages| - 1;
      PagesFitLimits(l, world, now, coins, pages[..n]);
      assert forall m :: 0 <= m < n ==> pages[..n][m] == pages[m];
      PageFitsLimits(l, world, n + 1, now, RunCoins(world, now, coins, pages[..n]), pages[n]);
    }
  }

  lemma PageFitsLimits(l: Limits, world: World, page: nat, now: int, coins: CryptoTable.Table, p: PageLog)
    requires PageDone(l.maxRetries, PlanFor(world, page), world.letters(page), now, coins, p) && Bounded(l, world)
    ensures WithinLimits(l, p)
  {
    var plan := PlanFor(world, page);
    forall k: nat | k < |p.attempts|
      ensures p.attempts[k].duration <= l.attempt
    {
      assert p.attempts[k] == Logged(plan(k + 1), CoinsAfter(plan, coins, now, k), now);
    }
  }

  /**
   If the world respects the limits, so does every page of the run, and the lock is held no
   longer than the worst run.
   */
  lemma RunFitsLimits(l: Limits, world: World, before: Tables, start: int, r: Report, after: Tables, end: int)
    requires l.maxRetries >= 1 && Bounded(l, world)
    requires RunDone(l.pages, l.maxRetries, world, before, start, r, after, end)
    ensures |r.pages| <= l.pages && PurgeTime(r, world.purge) <= l.purge
    ensures forall n :: 0 <= n < |r.pages| ==> WithinLimits(l, r.pages[n])
    ensures end - start == PagesTime(r.pages) + PurgeTime(r, world.purge) <= WorstRun(l)
  {
    PagesFitLimits(l, world, start, before.coins, r.pages);
    RunTimeBounded(l, r.pages, PurgeTime(r, world.purge));
  }

  /** A key that no page touches. */
  predicate OutsidePages(key: string) {
    !Matches(DETAIL_PREFIX, key) && !Matches(LIST_PREFIX, key) && !Matches(MOVERS_PREFIX, key)
  }

  type LockKey = key: string | OutsidePages(key) witness ""

  /** The lock key is there, with that expiry. */
  predicate LockedUntil(store: Store, key: LockKey, expiry: int) {
    key in store && store[key] == Redis.Entry(Marker, expiry)
  }

  /** Pages of a run were at work on the store between those instants. */
  ghost predicate Touched(before: Store, after: Store, from: int, to: int) {
    SameOutside(before, after) && StampedBetween(before, after, from, to)
  }

  lemma TouchedMore(before: Store, middle: Store, after: Store, from: int, mid: int, to: int, end: int)
    requires from <= mid <= to <= end
    requires Touched(before, middle, from, mid) && Touched(middle, after, mid, to)
    ensures Touched(before, after, from, end)
  {
  }

  lemma TouchedLater(before: Store, after: Store, from: int, to: int, end: int)
    requires Touched(before, after, from, to) && to <= end
    ensures Touched(before, after, from, end)
  {
  }

  /**
   What a run writes through is stored within the worst run of its start, which is the
   refresh instant of what it writes.
   */
  lemma WriteThroughsAreTimely(
      l: Limits, world: World, before: Tables, start: int, r: Report, after: Tables, end: int,
      store: Store, written: Store, key: string)
    requires l.maxRetries >= 1 && Bounded(l, world)
    requires RunDone(l.pages, l.maxRetries, world, before, start, r, after, end)
    requires StampedBetween(store, written, start, end) && Matches(DETAIL_PREFIX, key)
    requires key in written && !(key in store && written[key] == store[key])
    ensures start <= written[key].expiry - CACHE_TTL_MS <= start + WorstRun(l)
  {
    RunFitsLimits(l, world, before, start, r, after, end);
  }

  /** The store with the lock taken until that instant. */
  function WithLock(store: Store, key: LockKey, expiry: int): Store {
    store[key := Redis.Entry(Marker, expiry)]
  }

  /** Whether the lock is still there is all that a run may change outside its pages' families. */
  ghost predicate OnlyLockLeft(unlocks: bool, before: Store, key: LockKey, expiry: int, after: Store) {
    && (if unlocks then key !in after else LockedUntil(after, key, expiry))
    && forall k :: OutsidePages(k) && k != key ==>
         (k in after <==> k in before) && (k in after ==> after[k] == before[k])
  }

  lemma UnlockLeaves(unlocks: bool, before: Store, key: LockKey, expiry: int, done: Store, from: int, to: int)
    requires Touched(WithLock(before, key, expiry), done, from, to) && LockedUntil(done, key, expiry)
    ensures var after := if unlocks then Redis.Without(done, [key]) else done;
      OnlyLockLeft(unlocks, before, key, expiry, after) && StampedBetween(before, after, from, to)
  {
  }

  /** No page touches the lock. */
  lemma LockStays(before: Store, after: Store, key: LockKey, expiry: int)
    requires LockedUntil(before, key, expiry) && SameOutside(before, after)
    ensures LockedUntil(after, key, expiry)
  {
  }

  class Worker {
    const db: Session
    const redis: Redis.Server<Payload>
    const totalPages: nat
    const maxRetries: nat
    const lockTtlMs: nat
    const lockKey: LockKey
    var clock: int
    var gauges: Gauges

    constructor (
        db: Session, redis: Redis.Server<Payload>, totalPages: nat, maxRetries: nat, lockTtlMs: nat, clock: int)
      ensures this.db == db && this.redis == redis && this.clock == clock
      ensures this.totalPages == totalPages && this.maxRetries == maxRetries && this.lockTtlMs == lockTtlMs
      ensures gauges == Gauges(0, 0, 0) && lockKey == Render(WorkerLock)
    {
      PatternsSelectFamilies(WorkerLock);
      lockKey := Render(WorkerLock);
      this.db, this.redis, this.clock := db, redis, clock;
      this.totalPages, this.maxRetries, this.lockTtlMs := totalPages, maxRetries, lockTtlMs;
      gauges := Gauges(0, 0, 0);
    }

    /** The SETEX loop: true when every coin of the page was written before Redis gave out. */
    method WritePage(raw: seq<RawCoin>, table: CryptoTable.Table, now: int, commands: nat) returns (done: bool)
      requires forall i :: 0 <= i < |raw| ==> raw[i].id in table
      modifies redis`store
      ensures done <==> commands >= 2 * |raw|
      ensures redis.store == WrittenBy(old(redis.store), raw, table, now, clock, commands)
      ensures SameOutside(old(redis.store), redis.store)
    {
      ghost var store := redis.store;
      for i := 0 to |raw|
        invariant redis.store == Written(store, raw, table, now, clock, i)
        invariant 2 * i <= commands
      {
        var row := table[raw[i].id];
        var payload := Payload.Coin(PageDict(raw[i], row, now));
        OnlyDetailsWritten(store, raw, table, now, clock, i);
        PatternsSelectFamilies(Detail(row.id));
        if commands < 2 * i + 1 {
          return false;
        }
        redis.SetEx(Render(Detail(row.id)), CACHE_TTL_MS, payload, clock);
        if commands < 2 * i + 2 {
          return false;
        }
        redis.SetEx(Render(DetailAlias(raw[i].id)), CACHE_TTL_MS, payload, clock);
      }
      OnlyDetailsWritten(store, raw, table, now, clock, |raw|);
      return true;
    }

    /** The transaction of one attempt: upsert, snapshots, commit; any failure leaves the tables as they were. */
    method StorePage(a: Attempt, now: int) returns (committed: bool)
      requires a.answer.Some? && a.answer.value != []
      modifies db
      ensures committed <==> Commits(a, old(db.committed).coins, now)
      ensures db.committed == if committed then AfterCommit(a, old(db.committed), now) else old(db.committed)
      ensures committed ==> old(db.committed).history <= db.committed.history
      ensures committed ==> AddsTheCoins(a.answer.value, now, db.committed.history, |old(db.committed).history|)
    {
      var raw := a.answer.value;
      db.Begin();
      var upserted := db.UpsertMany(CoinsOf(raw, now), Minted(a, |raw|), a.clock);
      if upserted.Err? {
        return false;
      }
      for i := 0 to |raw|
        invariant db.committed == old(db.committed)
        invariant db.working == old(db.committed).(
          coins := Upserted(a, old(db.committed).coins, now).value,
          history := old(db.committed).history + Snapshots(raw[..i], now))
      {
        assert raw[..i + 1][..i] == raw[..i];
        if raw[i].market.currentPrice.Some? {
          db.AppendPriceSnapshot(Snapshot(raw[i].id, raw[i].market.currentPrice.value, now));
        }
      }
      assert raw[..|raw|] == raw;
      if !a.commits {
        return false;
      }
      db.Commit();
      CommitAddsTheCoins(a, old(db.committed), now);
      return true;
    }

    /** The two pattern deletes; Redis may give out before either of them. */
    method DropDerived(commands: nat) returns (done: bool)
      modifies redis
      ensures done <==> commands >= 2
      ensures redis.store == if commands == 0 then old(redis.store)
        else if commands == 1 then Dropped(old(redis.store), LIST_PREFIX)
        else Invalidated(old(redis.store))
    {
      if commands < 1 {
        return false;
      }
      var _ := redis.DeletePattern(LIST_PREFIX);
      if commands < 2 {
        return false;
      }
      var _ := redis.DeletePattern(MOVERS_PREFIX);
      return true;
    }

    /** The Redis half of one attempt: write the page through, then drop the list and top-mover families. */
    method Publish(raw: seq<RawCoin>, table: CryptoTable.Table, now: int, commands: nat) returns (done: bool)
      requires DistinctRaw(raw) && Injective(table) && RowsMatch(raw, table)
      modifies redis
      ensures done <==> commands >= CommandsFor(|raw|)
      ensures redis.store == Published(old(redis.store), raw, table, now, clock, commands)
      ensures done ==> PageReadable(redis.store, raw, table, now, clock)
      ensures SameOutside(old(redis.store), redis.store)
    {
      PublishedOutside(redis.store, raw, table, now, clock, commands);
      PublishedIsReadable(redis.store, raw, table, now, clock, commands);
      var written := WritePage(raw, table, now, commands);
      if !written {
        return false;
      }
      done := DropDerived(commands - 2 * |raw|);
    }

    method FetchAndStorePage(a: Attempt, now: int) returns (log: AttemptLog)
      requires Injective(db.committed.coins)
      modifies this`clock, db, redis
      ensures clock == old(clock) + a.duration
      ensures log == Logged(a, old(db.committed).coins, now) && Faithful(log, now)
      ensures log.answer == a.answer && log.duration == a.duration
      ensures log.committed <==> Storable(a, old(db.committed).coins)
      ensures db.committed == if log.committed then AfterCommit(a, old(db.committed), now) else old(db.committed)
      ensures log.committed ==> RowsMatch(a.answer.value, db.committed.coins)
      ensures log.committed ==>
        && StoredAs(old(db.committed).coins, a.answer.value, Always(now), a.clock, a.minted, db.committed.coins)
        && AddsTheCoins(a.answer.value, now, db.committed.history, |old(db.committed).history|)
      ensures SameCoins(old(db.committed).coins, db.committed.coins)
      ensures log.result.Ok? <==>
        a.answer == Some([]) || (log.committed && a.redisCommands >= 2 * |a.answer.value| + 2)
      ensures log.result.Ok? ==> log.result.value == |a.answer.value|
      ensures log.result.Err? ==> log.result.error == a.error
      ensures log.result.Ok? && a.answer.value != [] ==>
        PageReadable(redis.store, a.answer.value, db.committed.coins, now, clock)
      ensures redis.store == if log.committed
        then Published(old(redis.store), a.answer.value, db.committed.coins, now, clock, a.redisCommands)
        else old(redis.store)
      ensures Touched(old(redis.store), redis.store, clock, clock)
    {
      LoggedIsFaithful(a, db.committed.coins, now);
      CommitsIffStorable(a, db.committed.coins, now);
      clock := clock + a.duration;
      if a.answer.None? {
        return AttemptLog(a.answer, false, [], Err(a.error), a.duration);
      }
      var raw := a.answer.value;
      if raw == [] {
        return AttemptLog(a.answer, false, [], Ok(0), a.duration);
      }
      var committed := StorePage(a, now);
      if !committed {
        return AttemptLog(a.answer, false, [], Err(a.error), a.duration);
      }
      CommittedRows(a, old(db.committed), now);
      PublishedStamped(redis.store, raw, db.committed.coins, now, clock, a.redisCommands);
      var done := Publish(raw, db.committed.coins, now, a.redisCommands);
      return AttemptLog(a.answer, true, Snapshots(raw, now), if done then Ok(|raw|) else Err(a.error), a.duration);
    }

    /** An attempt seen from the retry loop: what it adds to the tables and how long it takes. */
    method TryPage(a: Attempt, now: int) returns (log: AttemptLog)
      requires Injective(db.committed.coins)
      modifies this`clock, db, redis
      ensures clock == old(clock) + log.duration
      ensures log == Logged(a, old(db.committed).coins, now)
      ensures db.committed == Grown(old(db.committed), CoinsAfterOne(a, old(db.committed).coins, now), log.stored, [])
      ensures Touched(old(redis.store), redis.store, old(clock), clock)
    {
      log := FetchAndStorePage(a, now);
    }

    /** The dead letter of a page that failed for good, in a transaction of its own. */
    method WriteDeadLetter(page: nat, error: string, letter: Housekeeping)
      modifies this`clock, db
      ensures clock == old(clock) + letter.duration
      ensures db.committed == Grown(old(db.committed), old(db.committed).coins, [],
        if letter.ok then [DeadLetter(page, Shorten(error))] else [])
    {
      db.Begin();
      db.WriteDeadLetter(page, error);
      clock := clock + letter.duration;
      if letter.ok {
        db.Commit();
      }
    }

    /** The retry loop: attempts with exponential backoff, until one works or there are no tries left. */
    method TryPageRepeatedly(plan: nat -> Attempt, now: int) returns (attempts: seq<AttemptLog>)
      requires maxRetries >= 1 && Injective(db.committed.coins)
      modifies this`clock, db, redis
      ensures 1 <= |attempts| <= maxRetries
      ensures forall k :: 0 <= k < |attempts| - 1 ==> attempts[k].result.Err?
      ensures attempts[|attempts| - 1].result.Err? ==> |attempts| == maxRetries
      ensures AttemptsSoFar(plan, now, old(db.committed), attempts, db.committed)
      ensures clock == old(clock) + Durations(attempts) + Backoff(|attempts|)
      ensures Touched(old(redis.store), redis.store, old(clock), clock)
    {
      ghost var before, start, keys := db.committed, clock, redis.store;
      attempts := [];
      var attempt := 1;
      while true
        invariant 1 <= attempt <= maxRetries && |attempts| == attempt - 1
        invariant AttemptsSoFar(plan, now, before, attempts, db.committed)
        invariant forall k :: 0 <= k < |attempts| ==> attempts[k].result.Err?
        invariant clock == start + Durations(attempts) + Backoff(attempt)
        invariant Touched(keys, redis.store, start, clock)
        decreases maxRetries - attempt
      {
        ghost var tables, store, mid := db.committed, redis.store, clock;
        CoinsKeepIdentity(plan, before.coins, now, attempt - 1);
        var log := TryPage(plan(attempt), now);
        TouchedMore(keys, store, redis.store, start, mid, clock, clock);
        AttemptsGrow(plan, now, before, attempts, tables, log, db.committed);
        attempts := attempts + [log];
        if log.result.Ok? || attempt == maxRetries {
          return attempts;
        }
        ghost var tried := clock;
        clock := clock + Pow2(attempt) * 1000;
        TouchedLater(keys, redis.store, start, tried, clock);
        attempt := attempt + 1;
      }
    }

    /** The dead letter of a page whose last try failed. */
    method GiveUpIfFailed(page: nat, p: PageLog, letter: Housekeeping) returns (lost: bool)
      requires p.attempts != [] && p.letterDuration == letter.duration
      modifies this`clock, db
      ensures lost <==> LastOf(p).result.Err? && !letter.ok
      ensures clock == old(clock) + if LastOf(p).result.Err? then p.letterDuration else 0
      ensures db.committed == Grown(old(db.committed), old(db.committed).coins, [],
        if lost then [] else LettersFor(page, p))
    {
      lost := false;
      if LastOf(p).result.Err? {
        WriteDeadLetter(page, LastOf(p).result.error, letter);
        lost := !letter.ok;
      }
    }

    /**
     One page: the retry loop, then a dead letter if its last try failed. `lost` means that the
     letter's write failed.
     */
    method RefreshPage(page: nat, plan: nat -> Attempt, letter: Housekeeping, now: int) returns (p: PageLog, lost: bool)
      requires maxRetries >= 1 && Injective(db.committed.coins)
      modifies this`clock, db, redis
      ensures PageDone(maxRetries, plan, letter, now, old(db.committed).coins, p)
      ensures lost <==> LastOf(p).result.Err? && !letter.ok
      ensures clock == old(clock) + PageTime(p)
      ensures db.committed == Grown(old(db.committed), CoinsAfter(plan, old(db.committed).coins, now, |p.attempts|),
        StoredByAttempts(p.attempts), if lost then [] else LettersFor(page, p))
      ensures Touched(old(redis.store), redis.store, old(clock), clock)
    {
      ghost var before, start, keys := db.committed, clock, redis.store;
      var attempts := TryPageRepeatedly(plan, now);
      ghost var stored, tried := db.committed, clock;
      p := PageLog(attempts, letter.duration);
      lost := GiveUpIfFailed(page, p, letter);
      TouchedLater(keys, redis.store, start, tried, clock);
      AttemptsEnd(maxRetries, plan, letter, now, before, attempts, stored, page, lost, db.committed);
    }

    /** The page loop; it stops early only when a dead letter could not be written. */
    method RefreshPages(world: World, now: int) returns (pages: seq<PageLog>, totalUpdated: nat, lost: bool)
      requires maxRetries >= 1 && Injective(db.committed.coins)
      modifies this`clock, db, redis
      ensures PagesSoFar(maxRetries, world, now, old(db.committed), pages, lost, db.committed)
      ensures totalUpdated == TotalUpdated(pages)
      ensures |pages| <= totalPages && (!lost ==> |pages| == totalPages)
      ensures clock == old(clock) + PagesTime(pages)
      ensures Touched(old(redis.store), redis.store, old(clock), clock)
    {
      ghost var before, start, keys := db.committed, clock, redis.store;
      pages, totalUpdated, lost := [], 0, false;
      var page := 1;
      while page <= totalPages && !lost
        invariant 1 <= page && |pages| == page - 1 <= totalPages
        invariant totalUpdated == TotalUpdated(pages)
        invariant clock == start + PagesTime(pages)
        invariant PagesSoFar(maxRetries, world, now, before, pages, lost, db.committed)
        invariant Touched(keys, redis.store, start, clock)
        decreases totalPages - page, !lost
      {
        ghost var tables, store, mid := db.committed, redis.store, clock;
        var p;
        RunKeepsIdentity(world, now, before.coins, pages);
        p, lost := RefreshPage(page, PlanFor(world, page), world.letters(page), now);
        TouchedMore(keys, store, redis.store, start, mid, clock, clock);
        PagesGrow(maxRetries, world, now, before, pages, tables, p, lost, db.committed);
        PageSumsSnoc(pages, p);
        pages := pages + [p];
        if p.attempts[|p.attempts| - 1].result.Ok? {
          totalUpdated := totalUpdated + p.attempts[|p.attempts| - 1].result.value;
        }
        page := page + 1;
      }
    }

    /** The housekeeping transaction at the end of a run. */
    method Purge(purge: Housekeeping)
      modifies this`clock, db
      ensures clock == old(clock) + purge.duration
      ensures db.committed == if purge.ok
        then old(db.committed).(history := Purged(old(db.committed).history, old(clock) - Days(KEEP_DAYS)))
        else old(db.committed)
    {
      db.Begin();
      var _ := db.PurgeOldHistory(clock, KEEP_DAYS);
      clock := clock + purge.duration;
      if purge.ok {
        db.Commit();
      }
    }

    /** All pages, then the gauges, which do not ask whether any page succeeded. */
    method RefreshAndReport(world: World) returns (pages: seq<PageLog>, totalUpdated: nat, lost: bool)
      requires maxRetries >= 1 && Injective(db.committed.coins)
      modifies this`clock, this`gauges, db, redis
      ensures PagesSoFar(maxRetries, world, old(clock), old(db.committed), pages, lost, db.committed)
      ensures totalUpdated == TotalUpdated(pages)
      ensures |pages| <= totalPages && (!lost ==> |pages| == totalPages)
      ensures clock == old(clock) + PagesTime(pages)
      ensures gauges == if lost then old(gauges) else Gauges(old(clock), totalUpdated, PagesTime(pages))
      ensures Touched(old(redis.store), redis.store, old(clock), clock)
    {
      var now := clock;
      pages, totalUpdated, lost := RefreshPages(world, now);
      if !lost {
        gauges := Gauges(now, totalUpdated, clock - now);
      }
    }

    /** A whole refresh: pages, gauges, purge. */
    method RefreshAndPurge(world: World) returns (r: Report)
      requires maxRetries >= 1 && Injective(db.committed.coins)
      modifies this`clock, this`gauges, db, redis
      ensures RunDone(totalPages, maxRetries, world, old(db.committed), old(clock), r, db.committed, clock)
      ensures gauges == if r.ending == DeadLetterLost then old(gauges)
        else Gauges(old(clock), r.totalUpdated, PagesTime(r.pages))
      ensures Touched(old(redis.store), redis.store, old(clock), clock)
    {
      ghost var before, start, keys := db.committed, clock, redis.store;
      var pages, totalUpdated, lost := RefreshAndReport(world);
      ghost var tables, reported := db.committed, clock;
      if lost {
        r := Report(DeadLetterLost, pages, totalUpdated);
      } else {
        Purge(world.purge);
        r := Report(if world.purge.ok then Completed else PurgeFailed, pages, totalUpdated);
      }
      TouchedLater(keys, redis.store, start, reported, clock);
      RunEnds(totalPages, maxRetries, world, before, start, tables, lost, r, db.committed, clock);
    }

    /** The body of the lock's try block: it starts with the lock and never touches it. */
    method RefreshUnderLock(world: World) returns (r: Report)
      requires maxRetries >= 1 && Injective(db.committed.coins)
      requires LockedUntil(redis.store, lockKey, clock + lockTtlMs)
      modifies this`clock, this`gauges, db, redis
      ensures RunDone(totalPages, maxRetries, world, old(db.committed), old(clock), r, db.committed, clock)
      ensures gauges == if r.ending == DeadLetterLost then old(gauges)
        else Gauges(old(clock), r.totalUpdated, PagesTime(r.pages))
      ensures Touched(old(redis.store), redis.store, old(clock), clock)
      ensures LockedUntil(redis.store, lockKey, old(clock) + lockTtlMs)
    {
      ghost var start, store := clock, redis.store;
      r := RefreshAndPurge(world);
      LockStays(store, redis.store, lockKey, start + lockTtlMs);
    }

    /**
     The try block and its finally: the lock is deleted whatever happens, or left to its expiry
     if Redis does not take the DEL. `before` is the store before the lock was taken.
     */
    method RefreshAndUnlock(world: World, ghost before: Store) returns (r: Report)
      requires maxRetries >= 1 && Injective(db.committed.coins)
      requires redis.store == WithLock(before, lockKey, clock + lockTtlMs)
      modifies this`clock, this`gauges, db, redis
      ensures RunDone(totalPages, maxRetries, world, old(db.committed), old(clock), r, db.committed, clock)
      ensures gauges == if r.ending == DeadLetterLost then old(gauges)
        else Gauges(old(clock), r.totalUpdated, PagesTime(r.pages))
      ensures OnlyLockLeft(world.unlocks, before, lockKey, old(clock) + lockTtlMs, redis.store)
      ensures StampedBetween(before, redis.store, old(clock), clock)
    {
      ghost var start := clock;
      r := RefreshUnderLock(world);
      UnlockLeaves(world.unlocks, before, lockKey, start + lockTtlMs, redis.store, start, clock);
      if world.unlocks {
        redis.Delete([lockKey]);
      }
    }

    /** _run_refresh: nothing at all if the lock is held. */
    method RunRefresh(world: World) returns (r: Report)
      requires maxRetries >= 1 && Injective(db.committed.coins)
      modifies this`clock, this`gauges, db, redis
      ensures r.ending == LockHeld <==> lockKey in old(redis.store) && old(clock) < old(redis.store)[lockKey].expiry
      ensures r.ending == LockHeld ==>
        clock == old(clock) && db.committed == old(db.committed) && redis.store == old(redis.store)
      ensures r.ending != LockHeld ==>
        RunDone(totalPages, maxRetries, world, old(db.committed), old(clock), r, db.committed, clock)
      ensures r.ending != LockHeld ==>
        OnlyLockLeft(world.unlocks, old(redis.store), lockKey, old(clock) + lockTtlMs, redis.store)
      ensures r.ending != LockHeld ==> StampedBetween(old(redis.store), redis.store, old(clock), clock)
      ensures gauges == if r.ending == LockHeld || r.ending == DeadLetterLost then old(gauges)
        else Gauges(old(clock), r.totalUpdated, PagesTime(r.pages))
    {
      ghost var before := redis.store;
      var acquired := redis.SetNx(lockKey, Marker, lockTtlMs, clock);
      if !acquired {
        return Report(LockHeld, [], 0);
      }
      r := RefreshAndUnlock(world, before);
    }
  }
}