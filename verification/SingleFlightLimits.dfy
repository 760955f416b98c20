/**
 Where single flight ends. It takes a holder that outlasts its lock, a factory that
 raises, or one that returns None for two factory runs in one burst; and after one
 raise every waiting caller polls until its budget is gone and then computes.
 */
module SingleFlightLimits {
  import opened CacheProtocol
  import opened CacheExclusion
  import opened CacheSafety
  import opened SingleFlight
  import opened Wrappers

  predicate AllQuiet(run: Run, misfires: set<Fate>) {
    forall e :: e in run ==> Quiet(e, misfires)
  }

  /** Nothing is stored along a script that ends with an empty entry and never invalidates. */
  lemma {:induction false} ScriptIsABurst(c: Config, s0: System, run: Run, misfires: set<Fate>)
    requires Exec(c, s0, run).Some? && Exec(c, s0, run).value.entry.None?
    requires AllQuiet(run, misfires)
    ensures Burst(c, s0, run, misfires)
  {
    if run != [] {
      var before, e := run[..|run| - 1], run[|run| - 1];
      assert e in run;
      assert forall x :: x in before ==> x in run;
      ScriptIsABurst(c, s0, before, misfires);
    }
  }

  /** Nor does anything expire along a script in which no time passes. */
  lemma {:induction false} TimelessScriptIsABurst(c: Config, s0: System, run: Run, misfires: set<Fate>)
    requires c.Valid() && c.ttl >= 1 && Cold(c, s0) && Exec(c, s0, run).Some?
    requires AllQuiet(run, misfires) && Timeless(run)
    ensures Burst(c, s0, run, misfires)
  {
    if run != [] {
      var before, e := run[..|run| - 1], run[|run| - 1];
      assert e in run;
      assert forall x :: x in before ==> x in run;
      TimelessScriptIsABurst(c, s0, before, misfires);
      RunsStaySane(c, s0, before);
      var s := Exec(c, s0, before).value;
      assert Consistent(c, s.now, s.callers[e.who]);
    }
  }

  lemma Join(c: Config, s0: System, first: Run, s1: System, second: Run, s2: System, misfires: set<Fate>)
    returns (run: Run)
    requires Exec(c, s0, first) == Some(s1) && Exec(c, s1, second) == Some(s2)
    requires AllQuiet(first, misfires) && AllQuiet(second, misfires)
    ensures run == first + second && Exec(c, s0, run) == Some(s2) && AllQuiet(run, misfires)
  {
    ExecThen(c, s0, first, second);
    run := first + second;
  }

  // ------------------------------------------------------- two flights

  /** A caller that has just been granted the lock and finds nothing runs the factory. */
  lemma HolderComputes(c: Config, s: System, i: nat, since: nat)
    requires c.Valid() && i < |s.callers| && s.callers[i] == Caller(Recheck(since), 0, 0, 0) && Hit(s).None?
    requires s.commits != [] && |s.commits[Latest(s)].view| == c.selects
    ensures Exec(c, s, [Step(i, Fetches)]).Some?
    ensures var t := Exec(c, s, [Step(i, Fetches)]).value;
      t == s.(callers := s.callers[i := Caller(Compute(Some(since), []), 0, 1, 0)], runs := s.runs + 1)
  {
    ExecOne(c, s, Step(i, Fetches));
  }

  /** Both overlapping holders double-check, miss, and run the factory. */
  lemma TwoFlights(c: Config, s0: System, misfires: set<Fate>) returns (run: Run)
    requires c.Valid() && Cold(c, s0) && |s0.callers| >= 2 && c.maxHold >= c.LockMs()
    ensures Burst(c, s0, run, misfires) && Exec(c, s0, run).value.runs == 2
  {
    OverlapHappens(c, s0);
    var s := Overlapped(c, s0);
    HolderComputes(c, s, 0, s0.now);
    var t := Exec(c, s, [Step(0, Fetches)]).value;
    HolderComputes(c, t, 1, s.now);
    var u := Exec(c, t, [Step(1, Fetches)]).value;
    run := Join(c, s0, Overlap(c), s, [Step(0, Fetches)], t, misfires);
    run := Join(c, s0, run, t, [Step(1, Fetches)], u, misfires);
    ScriptIsABurst(c, s0, run, misfires);
  }

  /** A holder that leaves nothing behind, having run the factory once, is followed by another. */
  lemma NextHolderComputes(c: Config, s0: System, first: Run, s: System, misfires: set<Fate>) returns (run: Run)
    requires c.Valid() && Exec(c, s0, first) == Some(s) && AllQuiet(first, misfires)
    requires |s.callers| >= 2 && s.callers[1] == Caller(Start, 0, 0, 0) && Hit(s).None? && s.lock.None?
    requires s.commits != [] && |s.commits[Latest(s)].view| == c.selects
    ensures run == first + (Steps(1) + [Step(1, Fetches)]) && AllQuiet(run, misfires) && Exec(c, s0, run).Some?
    ensures Exec(c, s0, run).value.runs == s.runs + 1 && Exec(c, s0, run).value.entry == s.entry
  {
    MissAndLock(c, s, 1);
    HolderComputes(c, Locked(c, s, 1), 1, s.now);
    var t := Exec(c, Locked(c, s, 1), [Step(1, Fetches)]).value;
    var second := Join(c, s, Steps(1), Locked(c, s, 1), [Step(1, Fetches)], t, misfires);
    run := Join(c, s0, first, s, second, t, misfires);
  }

  /** Caller 0 locks, computes, and raises. */
  lemma FirstRaises(c: Config, s0: System, misfires: set<Fate>) returns (run: Run)
    requires c.Valid() && Cold(c, s0) && |s0.callers| >= 1 && Fails in misfires
    ensures run == Steps(0) + LateRelease() && AllQuiet(run, misfires)
    ensures Exec(c, s0, run) == Some(LateReleased(Locked(c, s0, 0)))
  {
    MissAndLock(c, s0, 0);
    LateReleaseHappens(c, Locked(c, s0, 0), s0.now);
    run := Join(c, s0, Steps(0), Locked(c, s0, 0), LateRelease(), LateReleased(Locked(c, s0, 0)), misfires);
  }

  /** One raise is enough for a second factory run, however quick the callers are. */
  lemma RaiseFliesTwice(c: Config, s0: System, misfires: set<Fate>) returns (run: Run)
    requires c.Valid() && Cold(c, s0) && |s0.callers| >= 2 && Fails in misfires
    ensures Burst(c, s0, run, misfires) && Exec(c, s0, run).value.runs == 2
  {
    run := FirstRaises(c, s0, misfires);
    run := NextHolderComputes(c, s0, run, LateReleased(Locked(c, s0, 0)), misfires);
    ScriptIsABurst(c, s0, run, misfires);
  }

  /** Caller 0 locks, computes None, stores it and lets go. */
  function NullFlight(): Run {
    [Step(0, Fetches)] + [Step(0, NullResult)] + [Step(0, Fetches)] + [Step(0, Fetches)]
  }

  function NullStored(c: Config, s: System): System
    requires |s.callers| >= 1
  {
    s.(callers := s.callers[0 := Caller(Finished(Returned(Null, s.now)), 0, 1, 1)], lock := None,
       entry := Some(Entry(Null, s.now + c.ttl)), runs := s.runs + 1, produced := s.produced + [Null])
  }

  lemma NullFlightHappens(c: Config, s: System, since: nat)
    requires c.Valid() && |s.callers| >= 1 && s.callers[0] == Caller(Recheck(since), 0, 0, 0)
    requires Hit(s).None? && s.commits != [] && |s.commits[Latest(s)].view| == c.selects
    ensures Exec(c, s, NullFlight()) == Some(NullStored(c, s))
  {
    ExecOne(c, s, Step(0, Fetches));
    var t := Apply(c, s, Step(0, Fetches));
    assert t.callers[0] == Caller(Compute(Some(since), []), 0, 1, 0);
    ExecOne(c, t, Step(0, NullResult));
    var u := Apply(c, t, Step(0, NullResult));
    assert u.callers[0] == Caller(Store(Some(since), Null), 0, 1, 0);
    NullIsStored(c, u, since);
    assert NullStored(c, s).callers == u.callers[0 := Caller(Finished(Returned(Null, u.now)), 0, 1, 1)];
    ExecChain(c, s, [Step(0, Fetches)], t, [Step(0, NullResult)], u,
      [Step(0, Fetches)] + [Step(0, Fetches)], NullStored(c, s));
    assert [Step(0, Fetches)] + [Step(0, NullResult)] + ([Step(0, Fetches)] + [Step(0, Fetches)]) == NullFlight();
  }

  lemma NullIsStored(c: Config, u: System, since: nat)
    requires |u.callers| >= 1 && u.callers[0] == Caller(Store(Some(since), Null), 0, 1, 0)
    requires u.commits != [] && |u.commits[Latest(u)].view| == c.selects
    ensures Exec(c, u, [Step(0, Fetches)] + [Step(0, Fetches)]) ==
      Some(u.(callers := u.callers[0 := Caller(Finished(Returned(Null, u.now)), 0, 1, 1)], lock := None,
              entry := Some(Entry(Null, u.now + c.ttl))))
  {
    ExecOne(c, u, Step(0, Fetches));
    var v := Apply(c, u, Step(0, Fetches));
    assert v.callers[0] == Caller(Release(since, Returned(Null, u.now)), 0, 1, 1);
    ExecOne(c, v, Step(0, Fetches));
    ExecThen(c, u, [Step(0, Fetches)], [Step(0, Fetches)]);
    assert Apply(c, v, Step(0, Fetches)).callers
      == u.callers[0 := Caller(Finished(Returned(Null, u.now)), 0, 1, 1)];
  }

  predicate Timeless(run: Run) {
    forall e :: e in run ==> e.Step?
  }

  lemma FirstReturnsNone(c: Config, s0: System, misfires: set<Fate>) returns (run: Run)
    requires c.Valid() && Cold(c, s0) && |s0.callers| >= 1 && NullResult in misfires
    ensures AllQuiet(run, misfires) && Timeless(run)
    ensures Exec(c, s0, run) == Some(NullStored(c, Locked(c, s0, 0)))
  {
    var s := Locked(c, s0, 0);
    MissAndLock(c, s0, 0);
    NullFlightHappens(c, s, s0.now);
    run := Join(c, s0, Steps(0), s, NullFlight(), NullStored(c, s), misfires);
  }

  lemma TimelessJoin(first: Run, i: nat)
    requires Timeless(first)
    ensures Timeless(first + (Steps(i) + [Step(i, Fetches)]))
  {
  }

  /** A stored None is as good as nothing: the next caller computes again. */
  lemma NoneFliesTwice(c: Config, s0: System, misfires: set<Fate>) returns (run: Run)
    requires c.Valid() && c.ttl >= 1 && Cold(c, s0) && |s0.callers| >= 2 && NullResult in misfires
    ensures Burst(c, s0, run, misfires) && Exec(c, s0, run).value.runs == 2
  {
    var first := FirstReturnsNone(c, s0, misfires);
    TimelessJoin(first, 1);
    run := NextHolderComputes(c, s0, first, NullStored(c, Locked(c, s0, 0)), misfires);
    TimelessScriptIsABurst(c, s0, run, misfires);
  }

  /**
   At most one factory run in every burst, if and only if no holder can outlast the lock
   and factories neither raise nor return None.
   */
  lemma SingleFlightIff(c: Config, s0: System, misfires: set<Fate>)
    requires c.Valid() && c.ttl >= 1 && Cold(c, s0) && |s0.callers| >= 2
    ensures (forall run: Run :: Burst(c, s0, run, misfires) ==> Exec(c, s0, run).value.runs <= 1)
        <==> c.maxHold < c.lockTimeout * 1000 && Fails !in misfires && NullResult !in misfires
  {
    if c.maxHold < c.LockMs() && Fails !in misfires && NullResult !in misfires {
      assert forall f :: f in misfires ==> f.Fetches?;
      forall run: Run | Burst(c, s0, run, misfires)
        ensures Exec(c, s0, run).value.runs <= 1
      {
        BurstsFlyOnce(c, s0, run, misfires);
      }
    } else {
      var run;
      if c.maxHold >= c.LockMs() {
        run := TwoFlights(c, s0, misfires);
      } else if Fails in misfires {
        run := RaiseFliesTwice(c, s0, misfires);
      } else {
        run := NoneFliesTwice(c, s0, misfires);
      }
      assert Burst(c, s0, run, misfires);
    }
  }

  // -------------------------------------------------------- the herd

  /** Caller 0 is gone and left nothing; the others poll, those before `done` already in this round. */
  ghost predicate Polling(c: Config, s: System, left: nat, done: nat) {
    && s.entry.None? && s.pending == {} && s.commits != [] && |s.commits[Latest(s)].view| == c.selects
    && 1 <= done <= |s.callers| && s.callers[0].pc == Finished(Raised)
    && (forall i :: done <= i < |s.callers| ==>
         s.callers[i].pc.Waiting? && s.callers[i].pc.left == left && s.callers[i].pc.wake <= s.now)
    && (forall i :: 1 <= i < done ==>
         s.callers[i].pc == if left <= 1 then Compute(None, []) else Waiting(left - 1, s.now + POLL_MS))
  }

  /** One caller polls. */
  lemma PollOnce(c: Config, s: System, left: nat, done: nat)
    requires c.Valid() && left >= 1 && Polling(c, s, left, done) && done < |s.callers|
    ensures Enabled(c, s, Step(done, Fetches))
    ensures var t := Apply(c, s, Step(done, Fetches));
      && Polling(c, t, left, done + 1) && |t.callers| == |s.callers|
      && t.runs == s.runs + (if left == 1 then 1 else 0)
  {
  }

  /** Everybody polls. */
  lemma {:induction false} PollRound(c: Config, s: System, left: nat, done: nat) returns (run: Run, t: System)
    requires c.Valid() && left >= 1 && Polling(c, s, left, done)
    ensures Exec(c, s, run) == Some(t) && AllQuiet(run, {Fails})
    ensures |t.callers| == |s.callers| && Polling(c, t, left, |t.callers|)
    ensures t.runs == s.runs + if left == 1 then |s.callers| - done else 0
    decreases |s.callers| - done
  {
    if done == |s.callers| {
      run, t := [], s;
    } else {
      PollOnce(c, s, left, done);
      ExecOne(c, s, Step(done, Fetches));
      var u := Apply(c, s, Step(done, Fetches));
      run, t := PollRound(c, u, left, done + 1);
      run := Join(c, s, [Step(done, Fetches)], u, run, t, {Fails});
    }
  }

  /** Everybody sleeps a tenth of a second. */
  lemma SleepRound(c: Config, s: System, left: nat)
    requires left >= 2 && Polling(c, s, left, |s.callers|)
    ensures Exec(c, s, [Tick(POLL_MS)]) == Some(Later(s, POLL_MS))
    ensures Polling(c, Later(s, POLL_MS), left - 1, 1)
  {
    assert Timely(c, Later(s, POLL_MS));
    ExecOne(c, s, Tick(POLL_MS));
  }

  /** Round after round, until all the budgets are gone. */
  lemma {:induction false} PollOut(c: Config, s: System, left: nat) returns (run: Run, t: System)
    requires c.Valid() && left >= 1 && Polling(c, s, left, 1)
    ensures Exec(c, s, run) == Some(t) && AllQuiet(run, {Fails})
    ensures |t.callers| == |s.callers| && Polling(c, t, 1, |t.callers|)
    ensures t.runs == s.runs + |s.callers| - 1
    decreases left
  {
    run, t := PollRound(c, s, left, 1);
    if left >= 2 {
      SleepRound(c, t, left);
      run := Join(c, s, run, t, [Tick(POLL_MS)], Later(t, POLL_MS), {Fails});
      var rest, u := PollOut(c, Later(t, POLL_MS), left - 1);
      run := Join(c, s, run, Later(t, POLL_MS), rest, u, {Fails});
      t := u;
    }
  }

  /** Caller 0 holds the lock; those before `done` have lost to it and sleep. */
  ghost predicate Queueing(c: Config, s0: System, s: System, done: nat) {
    && s.entry.None? && s.pending == {} && s.commits != [] && |s.commits[Latest(s)].view| == c.selects
    && s.lock == Some(s.now + c.LockMs()) && s.now == s0.now && s.runs == 0 && |s.callers| == |s0.callers|
    && 1 <= done <= |s.callers| && s.callers[0] == Caller(Recheck(s0.now), 0, 0, 0)
    && (forall i :: done <= i < |s.callers| ==> s.callers[i] == Caller(Start, 0, 0, 0))
    && (forall i :: 1 <= i < done ==> s.callers[i].pc == Waiting(c.Polls(), s.now + POLL_MS))
  }

  lemma QueueOne(c: Config, s0: System, s: System, done: nat) returns (t: System)
    requires c.Valid() && Queueing(c, s0, s, done) && done < |s.callers|
    ensures Exec(c, s, Steps(done)) == Some(t) && Queueing(c, s0, t, done + 1)
  {
    var step := Step(done, Fetches);
    ExecOne(c, s, step);
    var u := Apply(c, s, step);
    ExecOne(c, u, step);
    t := Apply(c, u, step);
    ExecThen(c, s, [step], [step]);
    assert [step] + [step] == Steps(done);
  }

  lemma {:induction false} EveryoneQueues(c: Config, s0: System, s: System, done: nat) returns (run: Run, t: System)
    requires c.Valid() && Queueing(c, s0, s, done)
    ensures Exec(c, s, run) == Some(t) && AllQuiet(run, {Fails}) && Queueing(c, s0, t, |s.callers|)
    decreases |s.callers| - done
  {
    if done == |s.callers| {
      run, t := [], s;
    } else {
      var u := QueueOne(c, s0, s, done);
      run, t := EveryoneQueues(c, s0, u, done + 1);
      run := Join(c, s, Steps(done), u, run, t, {Fails});
    }
  }

  /** The holder raises, and a tenth of a second later everybody else looks. */
  lemma HolderRaises(c: Config, s0: System, s: System) returns (run: Run, t: System)
    requires c.Valid() && Queueing(c, s0, s, |s.callers|)
    ensures Exec(c, s, run) == Some(t) && AllQuiet(run, {Fails})
    ensures |t.callers| == |s.callers| && Polling(c, t, c.Polls(), 1) && t.runs == 1
  {
    LateReleaseHappens(c, s, s0.now);
    var u := LateReleased(s);
    t := Later(u, POLL_MS);
    assert Timely(c, t);
    ExecOne(c, u, Tick(POLL_MS));
    run := Join(c, s, LateRelease(), u, [Tick(POLL_MS)], t, {Fails});
  }

  /**
   The herd: with one raise, and nobody slow, all n callers run the factory, the last
   n - 1 of them at the same instant and without any lock.
   */
  lemma HerdAfterRaise(c: Config, s0: System) returns (run: Run)
    requires c.Valid() && Cold(c, s0) && |s0.callers| >= 1
    ensures Burst(c, s0, run, {Fails})
    ensures var s := Exec(c, s0, run).value;
      && s.runs == |s0.callers| == |s.callers| && s.callers[0].pc == Finished(Raised)
      && forall i :: 1 <= i < |s.callers| ==> s.callers[i].pc == Compute(None, [])
  {
    MissAndLock(c, s0, 0);
    var queue, s := EveryoneQueues(c, s0, Locked(c, s0, 0), 1);
    run := Join(c, s0, Steps(0), Locked(c, s0, 0), queue, s, {Fails});
    var raise, t := HolderRaises(c, s0, s);
    run := Join(c, s0, run, s, raise, t, {Fails});
    var polls, u := PollOut(c, t, c.Polls());
    run := Join(c, s0, run, t, polls, u, {Fails});
    ScriptIsABurst(c, s0, run, {Fails});
  }
}
