/**
 How stale a served value really gets: the bounds of CacheStaleness are reached, by
 what a reader stores and by what the worker writes through, whichever way round the
 refresh that replaces the row commits and invalidates.
 */
module StalenessLimits {
  import opened Wrappers
  import opened CacheProtocol
  import opened CacheExclusion
  import opened CacheStaleness

  /** What others do to the key during a run: commits, write-throughs, invalidations. */
  function Environment(run: Run): Run {
    if run == [] then []
    else
      var e := run[|run| - 1];
      Environment(run[..|run| - 1]) + if e.Tick? || e.Step? then [] else [e]
  }

  lemma {:induction false} EnvironmentConcat(first: Run, second: Run)
    ensures Environment(first + second) == Environment(first) + Environment(second)
  {
    if second == [] {
      assert first + second == first;
    } else {
      EnvironmentConcat(first, second[..|second| - 1]);
      assert (first + second)[..|first + second| - 1] == first + second[..|second| - 1];
    }
  }

  lemma StepsAreNoEnvironment(i: nat)
    ensures Environment(Steps(i)) == []
  {
    assert Steps(i)[..1] == [Step(i, Fetches)] && [Step(i, Fetches)][..0] == [];
    assert Environment([Step(i, Fetches)]) == [];
  }

  /** One run after another. */
  lemma Then(c: Config, s0: System, first: Run, s1: System, second: Run, s2: System) returns (run: Run)
    requires Exec(c, s0, first) == Some(s1) && Exec(c, s1, second) == Some(s2)
    ensures Exec(c, s0, run) == Some(s2)
    ensures Environment(run) == Environment(first) + Environment(second)
  {
    ExecThen(c, s0, first, second);
    EnvironmentConcat(first, second);
    run := first + second;
  }

  /** ... during which nobody else did anything. */
  lemma ThenQuietly(c: Config, s0: System, first: Run, s1: System, second: Run, s2: System) returns (run: Run)
    requires Exec(c, s0, first) == Some(s1) && Exec(c, s1, second) == Some(s2) && Environment(second) == []
    ensures Exec(c, s0, run) == Some(s2) && Environment(run) == Environment(first)
  {
    run := Then(c, s0, first, s1, second, s2);
    assert Environment(first) + [] == Environment(first);
  }

  /** A run and one event more. */
  lemma ThenOne(c: Config, s0: System, first: Run, s1: System, e: Event) returns (run: Run)
    requires Exec(c, s0, first) == Some(s1) && Enabled(c, s1, e)
    ensures Exec(c, s0, run) == Some(Apply(c, s1, e))
    ensures Environment(run) == Environment(first) + if e.Tick? || e.Step? then [] else [e]
  {
    ExecSnoc(c, s0, first, e);
    run := first + [e];
    assert run[..|run| - 1] == first;
  }

  /** Caller 0 has double-checked, missed, and read the one row it needs. */
  function HasRead(s: System, held: Option<nat>, v: Value): System
    requires |s.callers| >= 1
  {
    s.(callers := s.callers[0 := Caller(Store(held, v), 0, 1, 0)], runs := s.runs + 1, produced := s.produced + [v])
  }

  lemma CallerZeroReads(c: Config, s: System, since: nat) returns (run: Run)
    requires c.Valid() && c.selects == 1 && |s.callers| >= 1 && s.callers[0] == Caller(Recheck(since), 0, 0, 0)
    requires s.entry.None? && s.commits != [] && |s.commits[Latest(s)].view| == 1
    ensures Exec(c, s, run) == Some(HasRead(s, Some(since), Data([ReadPart(s, 0)], Reader))) && Environment(run) == []
  {
    var step := Step(0, Fetches);
    run := ThenOne(c, s, [], s, step);
    var a := Apply(c, s, step);
    assert a.callers[0] == Caller(Compute(Some(since), []), 0, 1, 0);
    run := ThenOne(c, s, run, a, step);
    assert [] + [ReadPart(a, 0)] == [ReadPart(s, 0)];
    assert Apply(c, a, step).callers == HasRead(s, Some(since), Data([ReadPart(s, 0)], Reader)).callers;
  }

  /** A commit of other data, with the key not stored afterwards. */
  function Replaced(s: System, field: Field): System {
    s.(commits := s.commits + [Commit([field], s.now)], entry := None)
  }

  /** ... and a stall of the reader that has already read. */
  function Overtaken(c: Config, s: System, field: Field): System {
    Later(Replaced(s, field), c.maxWrite)
  }

  /**
   What a refresh does to the key: the worker commits and then invalidates, the on-demand
   refresh the other way round.
   */
  function RefreshEvents(field: Field, commitsFirst: bool): Run {
    if commitsFirst then [CommitView([field], false), Invalidate] else [Invalidate, CommitView([field], false)]
  }

  lemma CommitReplaces(c: Config, s: System, field: Field, invalidates: bool) returns (run: Run)
    requires c.selects == 1 && field.refreshedAt <= s.now && s.entry.None?
    ensures Exec(c, s, run) == Some(Replaced(s, field))
    ensures Environment(run)
      == if invalidates then [CommitView([field], false), Invalidate] else [CommitView([field], false)]
  {
    var commit := CommitView([field], false);
    run := ThenOne(c, s, [], s, commit);
    if invalidates {
      run := ThenOne(c, s, run, Apply(c, s, commit), Invalidate);
    }
  }

  lemma CommitOvertakes(c: Config, s: System, field: Field, invalidates: bool) returns (run: Run)
    requires c.selects == 1 && field.refreshedAt <= s.now && s.entry.None?
    requires Timely(c, Overtaken(c, s, field))
    ensures Exec(c, s, run) == Some(Overtaken(c, s, field))
    ensures Environment(run)
      == if invalidates then [CommitView([field], false), Invalidate] else [CommitView([field], false)]
  {
    var replace := CommitReplaces(c, s, field, invalidates);
    var stall := TimePasses(c, Replaced(s, field), c.maxWrite);
    run := ThenQuietly(c, s, replace, Replaced(s, field), stall, Overtaken(c, s, field));
  }

  lemma InvalidateCold(c: Config, s: System)
    requires s.entry.None?
    ensures Exec(c, s, [Invalidate]) == Some(s) && Environment([Invalidate]) == [Invalidate]
  {
    ExecOne(c, s, Invalidate);
    assert [Invalidate][..0] == [];
  }

  function HasStored(c: Config, s: System, v: Value): System
    requires |s.callers| >= 1
  {
    s.(callers := s.callers[0 := Caller(Finished(Returned(v, s.now)), 0, 1, 1)],
       lock := None, entry := Some(Entry(v, s.now + c.ttl)))
  }

  lemma CallerZeroStores(c: Config, s: System, since: nat, v: Value) returns (run: Run)
    requires |s.callers| >= 1 && s.callers[0] == Caller(Store(Some(since), v), 0, 1, 0) && v.Data? && v.writer == Reader
    requires s.commits != [] && |s.commits[Latest(s)].view| == c.selects
    ensures Exec(c, s, run) == Some(HasStored(c, s, v)) && Environment(run) == []
  {
    var step := Step(0, Fetches);
    run := ThenOne(c, s, [], s, step);
    var a := Apply(c, s, step);
    assert a.callers[0] == Caller(Release(since, Returned(v, s.now)), 0, 1, 1);
    run := ThenOne(c, s, run, a, step);
    assert Apply(c, a, step).callers == HasStored(c, s, v).callers;
  }

  /** Caller 0 is done, nobody else has started, and v is stored until that instant. */
  ghost predicate Waiting(c: Config, s: System, v: Value, expiry: nat) {
    && |s.callers| >= 2 && s.callers[0].pc.Finished?
    && (forall i :: 0 < i < |s.callers| ==> s.callers[i] == Caller(Start, 0, 0, 0))
    && s.entry == Some(Entry(v, expiry)) && v != Null && s.pending == {}
    && s.commits != [] && |s.commits[Latest(s)].view| == c.selects
  }

  function HasHit(s: System, v: Value): System
    requires |s.callers| >= 2
  {
    s.(callers := s.callers[1 := Caller(Finished(Returned(v, s.now)), 0, 0, 0)])
  }

  /** An instant before expiry, caller 1 looks. */
  lemma CallerOneIsServed(c: Config, s: System, v: Value) returns (run: Run)
    requires c.ttl >= 1 && Waiting(c, s, v, s.now + c.ttl)
    ensures Exec(c, s, run) == Some(HasHit(Later(s, c.ttl - 1), v)) && Environment(run) == []
  {
    WaitingIsTimely(c, s, v, c.ttl - 1);
    var f := Later(s, c.ttl - 1);
    var wait := TimePasses(c, s, c.ttl - 1);
    var look := CallerOneLooks(c, f, v);
    run := ThenQuietly(c, s, wait, f, look, HasHit(f, v));
  }

  lemma WaitingIsTimely(c: Config, s: System, v: Value, ms: nat)
    requires Waiting(c, s, v, s.now + c.ttl)
    ensures Timely(c, Later(s, ms))
  {
    OthersIdle(c, Later(s, ms));
  }

  lemma TimePasses(c: Config, s: System, ms: nat) returns (run: Run)
    requires Timely(c, Later(s, ms))
    ensures Exec(c, s, run) == Some(Later(s, ms)) && Environment(run) == []
  {
    run := ThenOne(c, s, [], s, Tick(ms));
  }

  lemma CallerOneLooks(c: Config, s: System, v: Value) returns (run: Run)
    requires |s.callers| >= 2 && s.callers[1] == Caller(Start, 0, 0, 0) && Hit(s) == Some(v)
    requires s.commits != [] && |s.commits[Latest(s)].view| == c.selects
    ensures Exec(c, s, run) == Some(HasHit(s, v)) && Environment(run) == []
  {
    run := ThenOne(c, s, [], s, Step(1, Fetches));
  }

  lemma OthersIdle(c: Config, s: System)
    requires forall i :: 0 < i < |s.callers| ==> s.callers[i].pc == Start
    requires s.pending == {}
    requires |s.callers| >= 1 && Holds(s.callers[0].pc) ==> s.now <= Since(s.callers[0].pc) + c.maxHold
    requires |s.callers| >= 1 ==> forall p :: p in Unwritten(s.callers[0].pc) ==> s.now <= p.readAt + c.maxWrite
    ensures Timely(c, s)
  {
  }

  /**
   What caller 0 reads before it is overtaken, the state it is overtaken in, and the one in
   which caller 1 is handed it.
   */
  function StaleValue(s0: System): Value
    requires s0.commits != [] && |s0.commits[Latest(s0)].view| == 1
  {
    Data([ReadPart(s0, 0)], Reader)
  }

  function StaleReader(c: Config, s0: System, field: Field): System
    requires |s0.callers| >= 2 && s0.commits != [] && |s0.commits[Latest(s0)].view| == 1
  {
    Overtaken(c, Reading(c, s0), field)
  }

  /** Caller 0 has locked and read, and was not seen doing it. */
  function Reading(c: Config, s0: System): System
    requires |s0.callers| >= 2 && s0.commits != [] && |s0.commits[Latest(s0)].view| == 1
  {
    HasRead(Locked(c, s0, 0), Some(s0.now), StaleValue(s0))
  }

  lemma CallerZeroLocks(c: Config, s: System) returns (run: Run)
    requires |s.callers| >= 1 && s.callers[0] == Caller(Start, 0, 0, 0) && s.entry.None? && s.lock.None?
    requires s.commits != [] && |s.commits[Latest(s)].view| == c.selects
    ensures Exec(c, s, run) == Some(Locked(c, s, 0)) && Environment(run) == []
  {
    MissAndLock(c, s, 0);
    StepsAreNoEnvironment(0);
    run := Steps(0);
  }

  lemma LockAndRead(c: Config, s: System) returns (run: Run)
    requires c.Valid() && c.selects == 1 && |s.callers| >= 2 && s.callers[0] == Caller(Start, 0, 0, 0)
    requires s.entry.None? && s.lock.None? && s.commits != [] && |s.commits[Latest(s)].view| == 1
    ensures Exec(c, s, run) == Some(Reading(c, s)) && Environment(run) == []
  {
    var a := Locked(c, s, 0);
    var lock := CallerZeroLocks(c, s);
    var read := CallerZeroReads(c, a, s.now);
    assert StaleValue(s) == Data([ReadPart(a, 0)], Reader);
    run := ThenQuietly(c, s, lock, a, read, Reading(c, s));
  }

  /** Caller 0 locks and reads, after the invalidation if that comes first. */
  lemma ReaderReads(c: Config, s0: System, invalidated: bool) returns (run: Run)
    requires c.Valid() && Cold(c, s0) && c.selects == 1 && |s0.callers| >= 2
    ensures Exec(c, s0, run) == Some(Reading(c, s0))
    ensures Environment(run) == if invalidated then [Invalidate] else []
  {
    run := LockAndRead(c, s0);
    if invalidated {
      InvalidateCold(c, s0);
      run := Then(c, s0, [Invalidate], s0, run, Reading(c, s0));
    }
  }

  lemma StallIsTimely(c: Config, s0: System, field: Field)
    requires Cold(c, s0) && c.selects == 1 && |s0.callers| >= 2 && c.maxHold >= c.maxWrite
    ensures Timely(c, StaleReader(c, s0, field))
  {
    OthersIdle(c, StaleReader(c, s0, field));
  }

  lemma ReaderIsOvertaken(c: Config, s0: System, field: Field, commitsFirst: bool) returns (run: Run)
    requires c.Valid() && Cold(c, s0) && c.selects == 1 && |s0.callers| >= 2 && c.maxHold >= c.maxWrite
    requires field.refreshedAt <= s0.now
    ensures Exec(c, s0, run) == Some(StaleReader(c, s0, field))
      && Environment(run) == RefreshEvents(field, commitsFirst)
  {
    var read := ReaderReads(c, s0, !commitsFirst);
    StallIsTimely(c, s0, field);
    var overtake := CommitOvertakes(c, Reading(c, s0), field, commitsFirst);
    run := Then(c, s0, read, Reading(c, s0), overtake, StaleReader(c, s0, field));
  }

  /** Caller 0 is about to store; nobody else has started. */
  ghost predicate Storing(c: Config, s: System, since: nat, v: Value) {
    && |s.callers| >= 2 && s.callers[0] == Caller(Store(Some(since), v), 0, 1, 0)
    && (forall i :: 0 < i < |s.callers| ==> s.callers[i] == Caller(Start, 0, 0, 0))
    && v.Data? && v.writer == Reader && s.pending == {}
    && s.commits != [] && |s.commits[Latest(s)].view| == c.selects
  }

  lemma OvertakenIsStoring(c: Config, s0: System, field: Field)
    requires Cold(c, s0) && c.selects == 1 && |s0.callers| >= 2
    ensures var s := StaleReader(c, s0, field);
      && Storing(c, s, s0.now, StaleValue(s0)) && s.now == s0.now + c.maxWrite
      && s.commits == [s0.commits[0], Commit([field], s0.now)]
  {
  }

  /** Caller 1 has been handed that value, so much later and with no commit in between. */
  ghost predicate Handed(s: System, v: Value, ms: nat, t: System) {
    && t.now == s.now + ms && t.commits == s.commits
    && |t.callers| >= 2 && t.callers[1].pc == Finished(Returned(v, t.now))
  }

  lemma StoredThenServed(c: Config, s: System, since: nat, v: Value) returns (run: Run, t: System)
    requires c.ttl >= 1 && Storing(c, s, since, v)
    ensures Exec(c, s, run) == Some(t) && Environment(run) == [] && Handed(s, v, c.ttl - 1, t)
  {
    var stored := HasStored(c, s, v);
    var store := CallerZeroStores(c, s, since, v);
    assert Waiting(c, stored, v, stored.now + c.ttl);
    var serve := CallerOneIsServed(c, stored, v);
    t := HasHit(Later(stored, c.ttl - 1), v);
    run := ThenQuietly(c, s, store, stored, serve, t);
  }

  lemma StaleRunHappens(
      c: Config, s0: System, field: Field, commitsFirst: bool) returns (run: Run, s: System, t: System)
    requires c.Valid() && Cold(c, s0) && c.selects == 1 && c.ttl >= 1 && |s0.callers| >= 2 && c.maxHold >= c.maxWrite
    requires field.refreshedAt <= s0.now
    ensures Exec(c, s0, run) == Some(t) && Environment(run) == RefreshEvents(field, commitsFirst)
    ensures s == StaleReader(c, s0, field) && Handed(s, StaleValue(s0), c.ttl - 1, t)
  {
    s := StaleReader(c, s0, field);
    OvertakenIsStoring(c, s0, field);
    var serve;
    serve, t := StoredThenServed(c, s, s0.now, StaleValue(s0));
    var overtake := ReaderIsOvertaken(c, s0, field, commitsFirst);
    run := ThenQuietly(c, s0, overtake, s, serve, t);
  }

  /**
   The bound cannot be tightened, in whichever order a refresh commits and
   invalidates: with that refresh the only thing that happens to the key, a caller can
   be handed a row replaced TTL + maxWrite - 1 ms ago.
   */
  lemma StalenessBoundReached(c: Config, s0: System, field: Field, commitsFirst: bool) returns (run: Run)
    requires c.Valid() && Cold(c, s0) && c.selects == 1 && c.ttl >= 1 && |s0.callers| >= 2 && c.maxHold >= c.maxWrite
    requires field.refreshedAt <= s0.now && field != s0.commits[0].view[0]
    ensures Environment(run) == RefreshEvents(field, commitsFirst)
    ensures Exec(c, s0, run).Some? && |Exec(c, s0, run).value.callers| >= 2
    ensures Exec(c, s0, run).value.callers[1].pc.Finished?
    ensures var s := Exec(c, s0, run).value;
      var o := s.callers[1].pc.outcome;
      && o.Returned? && o.value.Data? && |o.value.parts| == 1 && o.value.writer == Reader && o.at == s.now
      && !CommittedDuring(s, 0, o.value.parts[0].field, o.at - c.ttl - c.maxWrite + 2, o.at)
  {
    var s, t;
    run, s, t := StaleRunHappens(c, s0, field, commitsFirst);
    OvertakenIsStoring(c, s0, field);
  }

  // ------------------------------------- the worker's bound is reached, too

  /** The worker has committed a row and not yet written it through. */
  function Pushing(s: System, field: Field): System {
    s.(commits := s.commits + [Commit([field], s.now)], pending := s.pending + {PushedValue(s, [field])})
  }

  /** ... an on-demand refresh has replaced the row meanwhile, and the worker has stalled. */
  function Outdated(c: Config, s: System, first: Field, field: Field): System {
    Later(Replaced(Pushing(s, first), field), c.maxWrite)
  }

  lemma PushIsReplaced(c: Config, s0: System, first: Field, field: Field, commitsFirst: bool) returns (run: Run)
    requires c.selects == 1 && s0.entry.None? && first.refreshedAt == s0.now <= s0.now + c.maxRun
    requires field.refreshedAt <= s0.now
    ensures Exec(c, s0, run) == Some(Replaced(Pushing(s0, first), field))
    ensures Environment(run) == [CommitView([first], true)] + RefreshEvents(field, commitsFirst)
  {
    var pushing := Pushing(s0, first);
    var push := ThenOne(c, s0, [], s0, CommitView([first], true));
    var refresh := RefreshRuns(c, pushing, field, commitsFirst);
    run := Then(c, s0, push, pushing, refresh, Replaced(pushing, field));
  }

  lemma OutdatedIsTimely(c: Config, s0: System, first: Field, field: Field)
    requires Cold(c, s0) && c.maxRun >= c.maxWrite && first.refreshedAt == s0.now
    ensures Timely(c, Outdated(c, s0, first, field))
  {
  }

  lemma PushIsStalled(c: Config, s0: System, first: Field, field: Field, commitsFirst: bool) returns (run: Run)
    requires c.selects == 1 && Cold(c, s0) && c.maxRun >= c.maxWrite
    requires first.refreshedAt == s0.now && field.refreshedAt <= s0.now
    ensures Exec(c, s0, run) == Some(Outdated(c, s0, first, field))
    ensures Environment(run) == [CommitView([first], true)] + RefreshEvents(field, commitsFirst)
  {
    var replaced := Replaced(Pushing(s0, first), field);
    var replace := PushIsReplaced(c, s0, first, field, commitsFirst);
    OutdatedIsTimely(c, s0, first, field);
    var stall := TimePasses(c, replaced, c.maxWrite);
    run := ThenQuietly(c, s0, replace, replaced, stall, Outdated(c, s0, first, field));
  }

  lemma RefreshRuns(c: Config, s: System, field: Field, commitsFirst: bool) returns (run: Run)
    requires c.selects == 1 && field.refreshedAt <= s.now && s.entry.None?
    ensures Exec(c, s, run) == Some(Replaced(s, field)) && Environment(run) == RefreshEvents(field, commitsFirst)
  {
    run := CommitReplaces(c, s, field, commitsFirst);
    if !commitsFirst {
      InvalidateCold(c, s);
      run := Then(c, s, [Invalidate], s, run, Replaced(s, field));
    }
  }

  function PushedOut(c: Config, s: System, v: Value): System {
    s.(entry := Some(Entry(v, s.now + c.pushTtl)), pending := s.pending - {v}, pushed := s.pushed + [v])
  }

  /** The worker stores after all. */
  lemma PushGoesOut(c: Config, s: System, v: Value) returns (run: Run)
    requires v in s.pending
    ensures Exec(c, s, run) == Some(PushedOut(c, s, v)) && Environment(run) == [WriteThrough(v)]
  {
    run := ThenOne(c, s, [], s, WriteThrough(v));
  }

  /** ... and an instant before expiry caller 0 looks. */
  lemma PushIsSeen(c: Config, s: System, v: Value) returns (run: Run, t: System)
    requires c.pushTtl >= 1 && v.Data? && s.pending == {} && s.entry == Some(Entry(v, s.now + c.pushTtl))
    requires |s.callers| >= 1 && forall i :: 0 <= i < |s.callers| ==> s.callers[i] == Caller(Start, 0, 0, 0)
    requires s.commits != [] && |s.commits[Latest(s)].view| == c.selects
    ensures Exec(c, s, run) == Some(t) && Environment(run) == []
    ensures t.commits == s.commits && t.now == s.now + c.pushTtl - 1
    ensures |t.callers| >= 1 && t.callers[0].pc == Finished(Returned(v, t.now))
  {
    var later := Later(s, c.pushTtl - 1);
    assert Timely(c, later);
    var wait := TimePasses(c, s, c.pushTtl - 1);
    var look;
    look, t := CallerZeroLooks(c, later, v);
    run := ThenQuietly(c, s, wait, later, look, t);
  }

  lemma CallerZeroLooks(c: Config, s: System, v: Value) returns (run: Run, t: System)
    requires |s.callers| >= 1 && s.callers[0] == Caller(Start, 0, 0, 0) && Hit(s) == Some(v)
    requires s.commits != [] && |s.commits[Latest(s)].view| == c.selects
    ensures Exec(c, s, run) == Some(t) && Environment(run) == []
    ensures t == s.(callers := s.callers[0 := Caller(Finished(Returned(v, s.now)), 0, 0, 0)])
  {
    run := ThenOne(c, s, [], s, Step(0, Fetches));
    t := Apply(c, s, Step(0, Fetches));
  }

  lemma OutdatedIsPending(c: Config, s0: System, first: Field, field: Field)
    requires Cold(c, s0) && c.selects == 1
    ensures var s, v := Outdated(c, s0, first, field), PushedValue(s0, [first]);
      && s.pending == {v} && PushedOut(c, s, v).pending == {}
      && s.now == s0.now + c.maxWrite && |s.callers| == |s0.callers|
      && (forall i :: 0 <= i < |s.callers| ==> s.callers[i] == Caller(Start, 0, 0, 0))
      && s.commits == [s0.commits[0], Commit([first], s0.now), Commit([field], s0.now)]
  {
  }

  lemma StalledPushGoesOut(c: Config, s0: System, first: Field, field: Field, commitsFirst: bool) returns (run: Run)
    requires c.selects == 1 && c.maxRun >= c.maxWrite && Cold(c, s0)
    requires first.refreshedAt == s0.now && field.refreshedAt <= s0.now
    ensures Exec(c, s0, run) == Some(PushedOut(c, Outdated(c, s0, first, field), PushedValue(s0, [first])))
    ensures Environment(run)
      == [CommitView([first], true)] + RefreshEvents(field, commitsFirst) + [WriteThrough(PushedValue(s0, [first]))]
  {
    var v, outdated := PushedValue(s0, [first]), Outdated(c, s0, first, field);
    OutdatedIsPending(c, s0, first, field);
    var stall := PushIsStalled(c, s0, first, field, commitsFirst);
    var store := PushGoesOut(c, outdated, v);
    run := Then(c, s0, stall, outdated, store, PushedOut(c, outdated, v));
  }

  lemma WorkerRunHappens(c: Config, s0: System, first: Field, field: Field, commitsFirst: bool)
    returns (run: Run, t: System)
    requires c.selects == 1 && c.pushTtl >= 1 && c.maxRun >= c.maxWrite && Cold(c, s0) && |s0.callers| >= 1
    requires first.refreshedAt == s0.now && field.refreshedAt <= s0.now
    ensures Exec(c, s0, run) == Some(t)
    ensures Environment(run)
      == [CommitView([first], true)] + RefreshEvents(field, commitsFirst) + [WriteThrough(PushedValue(s0, [first]))]
    ensures t.now == s0.now + c.maxWrite + c.pushTtl - 1 && s0.commits != []
    ensures t.commits == [s0.commits[0], Commit([first], s0.now), Commit([field], s0.now)]
    ensures |t.callers| >= 1 && t.callers[0].pc == Finished(Returned(PushedValue(s0, [first]), t.now))
  {
    var v := PushedValue(s0, [first]);
    var out := PushedOut(c, Outdated(c, s0, first, field), v);
    OutdatedIsPending(c, s0, first, field);
    var push := StalledPushGoesOut(c, s0, first, field, commitsFirst);
    var see;
    see, t := PushIsSeen(c, out, v);
    run := ThenQuietly(c, s0, push, out, see, t);
  }

  /** A row replaced at the very instant of its commit was never the database's afterwards. */
  lemma OnlyAtStart(t: System, s0: System, first: Field, field: Field, from: int)
    requires s0.commits != [] && first != field && from > s0.now
    requires t.commits == [s0.commits[0], Commit([first], s0.now), Commit([field], s0.now)]
    ensures !CommittedDuring(t, 0, first, from, t.now)
  {
  }

  /**
   What the worker writes through can be as stale as its own bound says: its page
   replaced and invalidated by an on-demand refresh before it is stored, and served
   pushTtl + maxWrite - 1 ms later.
   */
  lemma WorkerStalenessReached(c: Config, s0: System, first: Field, field: Field, commitsFirst: bool)
    returns (run: Run)
    requires c.selects == 1 && c.pushTtl >= 1 && c.maxRun >= c.maxWrite && Cold(c, s0) && |s0.callers| >= 1
    requires first.refreshedAt == s0.now && field.refreshedAt <= s0.now && first != field
    ensures Environment(run)
      == [CommitView([first], true)] + RefreshEvents(field, commitsFirst) + [WriteThrough(PushedValue(s0, [first]))]
    ensures Exec(c, s0, run).Some? && |Exec(c, s0, run).value.callers| >= 1
    ensures Exec(c, s0, run).value.callers[0].pc.Finished?
    ensures var s := Exec(c, s0, run).value;
      var o := s.callers[0].pc.outcome;
      && o == Returned(PushedValue(s0, [first]), s.now)
      && !CommittedDuring(s, 0, first, o.at - c.pushTtl - c.maxWrite + 2, o.at)
  {
    var t;
    run, t := WorkerRunHappens(c, s0, first, field, commitsFirst);
    OnlyAtStart(t, s0, first, field, t.now - c.pushTtl - c.maxWrite + 2);
  }
}
