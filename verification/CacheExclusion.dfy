/**
 When the cache lock is a lock. SET NX PX followed by an untokened DEL keeps two
 callers out of the critical section exactly when no holder can outlast the PX
 expiry; a single late holder is enough to let in two others that are both on time.
 */
module CacheExclusion {
  import opened Wrappers
  import opened CacheProtocol

  ghost predicate Exclusive(s: System) {
    forall i, j :: 0 <= i < j < |s.callers| ==> !(Holds(s.callers[i].pc) && Holds(s.callers[j].pc))
  }

  /** The lock key belongs to the one holder there is, and has not expired under it. */
  ghost predicate Guarded(c: Config, s: System) {
    && Exclusive(s)
    && forall i :: 0 <= i < |s.callers| && Holds(s.callers[i].pc) ==>
         var since := Since(s.callers[i].pc);
         s.lock == Some(since + c.LockMs()) && since <= s.now <= since + c.maxHold
  }

  lemma GuardedStep(c: Config, s: System, e: Event)
    requires c.maxHold < c.LockMs() && Guarded(c, s) && Enabled(c, s, e)
    ensures Guarded(c, Apply(c, s, e))
  {
    var t := Apply(c, s, e);
    if e.Tick? {
      forall i | 0 <= i < |t.callers| && Holds(t.callers[i].pc)
        ensures t.lock == Some(Since(t.callers[i].pc) + c.LockMs())
        ensures Since(t.callers[i].pc) <= t.now <= Since(t.callers[i].pc) + c.maxHold
      {
        assert s.callers[i] == t.callers[i];
      }
    }
  }

  lemma {:induction false} RunsStayGuarded(c: Config, s0: System, run: Run)
    requires c.maxHold < c.LockMs() && Cold(c, s0) && Exec(c, s0, run).Some?
    ensures Guarded(c, Exec(c, s0, run).value)
  {
    if run != [] {
      RunsStayGuarded(c, s0, run[..|run| - 1]);
      GuardedStep(c, Exec(c, s0, run[..|run| - 1]).value, run[|run| - 1]);
    }
  }

  // ------------------------------------------------------------ scripts

  function Steps(i: nat): Run {
    [Step(i, Fetches), Step(i, Fetches)]
  }

  /** The state in which caller i has just been granted the lock. */
  function Locked(c: Config, s: System, i: nat): System
    requires i < |s.callers|
  {
    s.(callers := s.callers[i := Caller(Recheck(s.now), 0, 0, 0)], lock := Some(s.now + c.LockMs()))
  }

  function Later(s: System, ms: nat): System {
    s.(now := s.now + ms)
  }

  /** A caller that finds nothing cached and the lock free, expired locks included. */
  lemma MissAndLock(c: Config, s: System, i: nat)
    requires i < |s.callers| && s.callers[i] == Caller(Start, 0, 0, 0)
    requires Hit(s).None? && LockFree(s)
    requires s.commits != [] && |s.commits[Latest(s)].view| == c.selects
    ensures Exec(c, s, Steps(i)) == Some(Locked(c, s, i))
  {
    ExecOne(c, s, Step(i, Fetches));
    var t := Apply(c, s, Step(i, Fetches));
    ExecOne(c, t, Step(i, Fetches));
    ExecThen(c, s, [Step(i, Fetches)], [Step(i, Fetches)]);
    assert s.callers[i := Caller(Locking, 0, 0, 0)][i := Caller(Recheck(s.now), 0, 0, 0)]
        == s.callers[i := Caller(Recheck(s.now), 0, 0, 0)];
    assert [Step(i, Fetches)] + [Step(i, Fetches)] == Steps(i);
  }

  /** Caller 0 takes the lock and stalls until the PX expiry; then caller 1 takes it too. */
  function Overlap(c: Config): Run {
    Steps(0) + [Tick(c.LockMs())] + Steps(1)
  }

  function Overlapped(c: Config, s0: System): System
    requires |s0.callers| >= 2
  {
    Locked(c, Later(Locked(c, s0, 0), c.LockMs()), 1)
  }

  lemma OverlapHappens(c: Config, s0: System)
    requires c.Valid() && Cold(c, s0) && |s0.callers| >= 2 && c.maxHold >= c.LockMs()
    ensures Exec(c, s0, Overlap(c)) == Some(Overlapped(c, s0))
  {
    MissAndLock(c, s0, 0);
    StallToExpiry(c, s0);
    MissAndLock(c, Later(Locked(c, s0, 0), c.LockMs()), 1);
    ExecChain(c, s0, Steps(0), Locked(c, s0, 0),
      [Tick(c.LockMs())], Later(Locked(c, s0, 0), c.LockMs()), Steps(1), Overlapped(c, s0));
  }

  lemma StallToExpiry(c: Config, s0: System)
    requires Cold(c, s0) && |s0.callers| >= 1 && c.maxHold >= c.LockMs()
    ensures Exec(c, Locked(c, s0, 0), [Tick(c.LockMs())]) == Some(Later(Locked(c, s0, 0), c.LockMs()))
  {
    var b := Later(Locked(c, s0, 0), c.LockMs());
    assert forall i :: 0 < i < |b.callers| ==> b.callers[i] == Caller(Start, 0, 0, 0);
    assert Timely(c, b);
    ExecOne(c, Locked(c, s0, 0), Tick(c.LockMs()));
  }

  /** Mutual exclusion holds in every reachable state if and only if no holder outlasts the lock. */
  lemma ExclusiveIffHoldersAreTimely(c: Config, s0: System)
    requires c.Valid() && Cold(c, s0) && |s0.callers| >= 2
    ensures (forall run: Run :: Exec(c, s0, run).Some? ==> Exclusive(Exec(c, s0, run).value))
        <==> c.maxHold < c.lockTimeout * 1000
  {
    if c.maxHold < c.LockMs() {
      forall run: Run | Exec(c, s0, run).Some?
        ensures Exclusive(Exec(c, s0, run).value)
      {
        RunsStayGuarded(c, s0, run);
      }
    } else {
      OverlapHappens(c, s0);
      var s := Overlapped(c, s0);
      assert Exec(c, s0, Overlap(c)).Some?;
      assert Holds(s.callers[0].pc) && Holds(s.callers[1].pc);
      assert !Exclusive(s);
    }
  }

  /** Caller 0, back from its stall, fails in the factory and deletes a lock that is no longer its own. */
  function LateRelease(): Run {
    [Step(0, Fetches)] + [Step(0, Fails)] + [Step(0, Fetches)]
  }

  function LateReleased(s: System): System
    requires |s.callers| >= 1
  {
    s.(callers := s.callers[0 := Caller(Finished(Raised), 0, 1, 0)], lock := None, runs := s.runs + 1)
  }

  lemma LateReleaseHappens(c: Config, s: System, since: nat)
    requires c.Valid() && |s.callers| >= 1 && s.callers[0] == Caller(Recheck(since), 0, 0, 0)
    requires s.entry.None? && s.commits != [] && |s.commits[Latest(s)].view| == c.selects
    ensures Exec(c, s, LateRelease()) == Some(LateReleased(s))
  {
    ExecOne(c, s, Step(0, Fetches));
    var a := Apply(c, s, Step(0, Fetches));
    assert a.callers[0] == Caller(Compute(Some(since), []), 0, 1, 0);
    ExecOne(c, a, Step(0, Fails));
    var b := Apply(c, a, Step(0, Fails));
    assert b.callers[0] == Caller(Release(since, Raised), 0, 1, 0);
    ExecOne(c, b, Step(0, Fetches));
    assert Apply(c, b, Step(0, Fetches)).callers == LateReleased(s).callers;
    ExecChain(c, s, [Step(0, Fetches)], a, [Step(0, Fails)], b, [Step(0, Fetches)], LateReleased(s));
  }

  /** One late holder lets two others in that are both well within their own lock lifetime. */
  lemma LateDeleteAdmitsTwoPunctualHolders(c: Config, s0: System) returns (run: Run)
    requires c.Valid() && Cold(c, s0) && |s0.callers| >= 3 && c.maxHold >= c.LockMs()
    ensures Exec(c, s0, run).Some? && |Exec(c, s0, run).value.callers| >= 3
    ensures var s := Exec(c, s0, run).value;
      && Holds(s.callers[1].pc) && Holds(s.callers[2].pc)
      && s.now < Since(s.callers[1].pc) + c.LockMs() && s.now < Since(s.callers[2].pc) + c.LockMs()
  {
    OverlapHappens(c, s0);
    var s := Overlapped(c, s0);
    LateReleaseHappens(c, s, s0.now);
    var t := LateReleased(s);
    assert t.callers[2] == Caller(Start, 0, 0, 0);
    MissAndLock(c, t, 2);
    ExecChain(c, s0, Overlap(c), s, LateRelease(), t, Steps(2), Locked(c, t, 2));
    run := Overlap(c) + LateRelease() + Steps(2);
  }
}
