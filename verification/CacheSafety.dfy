/**
 What cache_get_or_set guarantees with no assumption at all on timing, failures or
 invalidation: every caller finishes after a bounded number of its own steps, with
 at most Polls() polls and one factory call; a caller whose factory raised has
 stored nothing; and nobody is handed a value that no factory run and no
 write-through produced.
 */
module CacheSafety {
  import opened Wrappers
  import opened CacheProtocol

  /** A caller's counters and position agree. */
  predicate Consistent(c: Config, now: nat, u: Caller) {
    match u.pc
    case Waiting(left, wake) =>
      left >= 1 && u.polls + left == c.Polls() && u.calls == 0 && u.stores == 0 && wake <= now + POLL_MS
    case Compute(held, parts) =>
      u.polls <= c.Polls() && u.calls == 1 && u.stores == 0 && |parts| < c.selects
    case Store(held, value) =>
      u.polls <= c.Polls() && u.calls == 1 && u.stores == 0
        && (value.Data? ==> value.writer == Reader && |value.parts| == c.selects)
    case Release(_, outcome) => Settled(c, u, outcome)
    case Finished(outcome) => Settled(c, u, outcome)
    case _ => u.polls == 0 && u.calls == 0 && u.stores == 0
  }

  predicate Settled(c: Config, u: Caller, outcome: Outcome) {
    && u.polls <= c.Polls()
    && u.calls <= 1
    && u.stores == (if outcome.Raised? then 0 else u.calls)
    && (outcome.Raised? ==> u.calls == 1)
    && (outcome == Raised || outcome.value == Null ==> u.calls == 1)
  }

  /** Made by a factory run for this key, or by the worker for this key. */
  predicate Known(s: System, v: Value) {
    v in s.produced || v in s.pushed
  }

  predicate OutcomeKnown(s: System, o: Outcome) {
    o.Returned? ==> Known(s, o.value)
  }

  predicate Honest(s: System, pc: Pc) {
    match pc
    case Store(_, value) => value in s.produced
    case Release(_, outcome) => OutcomeKnown(s, outcome)
    case Finished(outcome) => OutcomeKnown(s, outcome)
    case _ => true
  }

  ghost predicate Sane(c: Config, s: System) {
    && s.commits != []
    && (forall k :: 0 <= k < |s.commits| ==> |s.commits[k].view| == c.selects)
    && (s.entry.Some? ==> Known(s, s.entry.value.value))
    && (forall i :: 0 <= i < |s.callers| ==> Consistent(c, s.now, s.callers[i]))
    && (forall i :: 0 <= i < |s.callers| ==> Honest(s, s.callers[i].pc))
  }

  lemma ColdIsSane(c: Config, s: System)
    requires c.Valid() && Cold(c, s)
    ensures Sane(c, s)
  {
  }

  lemma ResumeConsistent(c: Config, now: nat, u: Caller, r: Reply)
    requires c.Valid() && Consistent(c, now, u) && !u.pc.Finished? && r.now == now
    requires r.hit.Some? ==> r.hit.value != Null
    ensures Consistent(c, now, Tally(u, Resume(c, u.pc, r)))
  {
  }

  lemma ActSane(c: Config, s: System, i: nat, fate: Fate)
    requires c.Valid() && Sane(c, s) && Enabled(c, s, Step(i, fate))
    ensures Sane(c, Act(c, s, i, fate))
  {
    var t := Act(c, s, i, fate);
    var u := s.callers[i];
    assert Consistent(c, s.now, u) && Honest(s, u.pc);
    ResumeConsistent(c, s.now, u, Answer(c, s, u.pc, fate));
    assert forall v :: Known(s, v) ==> Known(t, v);
    assert Honest(t, t.callers[i].pc);
    forall j | 0 <= j < |t.callers|
      ensures Consistent(c, t.now, t.callers[j]) && Honest(t, t.callers[j].pc)
    {
      assert Consistent(c, s.now, s.callers[j]) && Honest(s, s.callers[j].pc);
    }
  }

  lemma EnvironmentSane(c: Config, s: System, e: Event)
    requires c.Valid() && Sane(c, s) && Enabled(c, s, e) && !e.Step?
    ensures Sane(c, Apply(c, s, e))
  {
    var t := Apply(c, s, e);
    assert forall v :: Known(s, v) ==> Known(t, v);
    forall j | 0 <= j < |t.callers|
      ensures Consistent(c, t.now, t.callers[j]) && Honest(t, t.callers[j].pc)
    {
      assert Consistent(c, s.now, s.callers[j]) && Honest(s, s.callers[j].pc);
    }
  }

  lemma {:induction false} RunsStaySane(c: Config, s0: System, run: Run)
    requires c.Valid() && Cold(c, s0) && Exec(c, s0, run).Some?
    ensures Sane(c, Exec(c, s0, run).value)
    ensures |Exec(c, s0, run).value.callers| == |s0.callers|
  {
    if run == [] {
      ColdIsSane(c, s0);
    } else {
      var before, e := run[..|run| - 1], run[|run| - 1];
      RunsStaySane(c, s0, before);
      var s := Exec(c, s0, before).value;
      if e.Step? {
        ActSane(c, s, e.who, e.fate);
      } else {
        EnvironmentSane(c, s, e);
      }
    }
  }

  /** Whatever happens: bounded polls, at most one factory call, no store after a raise, no invented value. */
  lemma UnconditionalSafety(c: Config, s0: System, run: Run, i: nat, outcome: Outcome)
    requires c.Valid() && Cold(c, s0) && Exec(c, s0, run).Some?
    requires i < |Exec(c, s0, run).value.callers| && Exec(c, s0, run).value.callers[i].pc == Finished(outcome)
    ensures var s := Exec(c, s0, run).value;
      var u := s.callers[i];
      && u.polls <= c.lockTimeout * 10 && u.calls <= 1 && u.stores <= 1
      && (outcome.Raised? ==> u.calls == 1 && u.stores == 0)
      && (outcome.Returned? ==> u.stores == u.calls)
      && (outcome.Returned? ==> outcome.value in s.produced || outcome.value in s.pushed)
      && (outcome.Returned? && outcome.value == Null ==> u.calls == 1)
  {
    RunsStaySane(c, s0, run);
    var s := Exec(c, s0, run).value;
    assert Consistent(c, s.now, s.callers[i]) && Honest(s, s.callers[i].pc);
  }

  // ------------------------------------------------------------ termination

  /** A bound on the steps a caller still has to take. */
  function StepsLeft(c: Config, pc: Pc): nat {
    match pc
    case Start => c.selects + c.Polls() + 5
    case Locking => c.selects + c.Polls() + 4
    case Recheck(_) => c.selects + 3
    case Compute(_, parts) => if |parts| < c.selects then c.selects - |parts| + 2 else 3
    case Store(_, _) => 2
    case Release(_, _) => 1
    case Waiting(left, _) => c.selects + left + 3
    case Finished(_) => 0
  }

  function StepsBy(run: Run, i: nat): nat {
    if run == [] then 0
    else StepsBy(run[..|run| - 1], i) + if run[|run| - 1].Step? && run[|run| - 1].who == i then 1 else 0
  }

  lemma StepsDecrease(c: Config, pc: Pc, r: Reply)
    requires c.Valid() && !pc.Finished?
    ensures StepsLeft(c, Resume(c, pc, r)) < StepsLeft(c, pc)
  {
  }

  /** An event uses up one of the caller's own steps, or leaves the caller where it is. */
  lemma StepsUsedUp(c: Config, s: System, e: Event, i: nat)
    requires c.Valid() && Sane(c, s) && Enabled(c, s, e) && i < |s.callers|
    ensures |Apply(c, s, e).callers| == |s.callers|
    ensures StepsLeft(c, Apply(c, s, e).callers[i].pc) + (if e.Step? && e.who == i then 1 else 0)
      <= StepsLeft(c, s.callers[i].pc)
  {
    if e.Step? && e.who == i {
      StepsDecrease(c, s.callers[i].pc, Answer(c, s, s.callers[i].pc, e.fate));
    }
  }

  lemma LastEventUsesUp(c: Config, s0: System, run: Run, i: nat)
    requires c.Valid() && Cold(c, s0) && i < |s0.callers| && Exec(c, s0, run).Some? && run != []
    ensures var s, t := Exec(c, s0, run[..|run| - 1]).value, Exec(c, s0, run).value;
      var e := run[|run| - 1];
      && |s.callers| == |t.callers| == |s0.callers|
      && StepsLeft(c, t.callers[i].pc) + (if e.Step? && e.who == i then 1 else 0) <= StepsLeft(c, s.callers[i].pc)
  {
    RunsStaySane(c, s0, run[..|run| - 1]);
    StepsUsedUp(c, Exec(c, s0, run[..|run| - 1]).value, run[|run| - 1], i);
  }

  /** However the other callers, the database, the worker and the clock behave, a caller's own steps run out. */
  lemma {:induction false} EveryCallerFinishes(c: Config, s0: System, run: Run, i: nat)
    requires c.Valid() && Cold(c, s0) && i < |s0.callers| && Exec(c, s0, run).Some?
    ensures |Exec(c, s0, run).value.callers| == |s0.callers|
    ensures var pc := Exec(c, s0, run).value.callers[i].pc;
      && StepsBy(run, i) + StepsLeft(c, pc) <= c.lockTimeout * 10 + c.selects + 5
      && (StepsLeft(c, pc) == 0 <==> pc.Finished?)
  {
    if run != [] {
      EveryCallerFinishes(c, s0, run[..|run| - 1], i);
      LastEventUsesUp(c, s0, run, i);
    }
  }

  /** A caller that has not finished can move now, or is asleep and wakes within one poll interval. */
  lemma NoCallerIsStuck(c: Config, s0: System, run: Run, i: nat)
    requires c.Valid() && Cold(c, s0) && i < |s0.callers| && Exec(c, s0, run).Some?
    ensures |Exec(c, s0, run).value.callers| == |s0.callers|
    ensures var s := Exec(c, s0, run).value;
      var pc := s.callers[i].pc;
      pc.Finished? || Enabled(c, s, Step(i, Fetches)) || (pc.Waiting? && s.now < pc.wake <= s.now + POLL_MS)
  {
    RunsStaySane(c, s0, run);
    var s := Exec(c, s0, run).value;
    assert Consistent(c, s.now, s.callers[i]);
  }

  // ------------------------------------------------------- hits and leases

  /** The caller's next await looks for the value. */
  predicate Looks(pc: Pc) {
    pc.Start? || pc.Recheck? || pc.Waiting?
  }

  /**
   Every look that hits is taken there and then, and changes nothing for anybody else: only the
   lock's holder still has to delete the lock.
   */
  lemma HitsAreTaken(c: Config, s: System, i: nat, fate: Fate)
    requires Enabled(c, s, Step(i, fate)) && Looks(s.callers[i].pc) && Hit(s).Some?
    ensures var answer := Returned(Hit(s).value, s.now);
      var u := s.callers[i];
      Apply(c, s, Step(i, fate)) == s.(callers := s.callers[i := u.(
        pc := if u.pc.Recheck? then Release(u.pc.since, answer) else Finished(answer),
        polls := u.polls + if u.pc.Waiting? then 1 else 0)])
  {
  }

  /** The run can be taken, and at every point of it the key holds a value. */
  ghost predicate HitsThroughout(c: Config, s: System, run: Run) {
    && Exec(c, s, run).Some? && Hit(Exec(c, s, run).value).Some?
    && (run != [] ==> HitsThroughout(c, s, run[..|run| - 1]))
  }

  /** Event k is the caller's first poll in the run, and what it finds is the caller's answer. */
  ghost predicate AnsweredAt(c: Config, s: System, run: Run, k: nat, i: nat, u: Caller)
    requires i < |s.callers|
  {
    && k < |run| && run[k].Step? && run[k].who == i && StepsBy(run[..k], i) == 0
    && Exec(c, s, run[..k]).Some? && Hit(Exec(c, s, run[..k]).value).Some?
    && var found := Exec(c, s, run[..k]).value;
      u == s.callers[i].(pc := Finished(Returned(Hit(found).value, found.now)), polls := s.callers[i].polls + 1)
  }

  /**
   While the key holds a value, a waiting caller, asleep for 100 ms at most, needs one poll: it is
   answered with what that poll finds and never runs the factory.
   */
  lemma WaitersTakeTheFirstHit(c: Config, s0: System, past: Run, run: Run, i: nat)
    requires c.Valid() && Cold(c, s0) && Exec(c, s0, past).Some? && i < |Exec(c, s0, past).value.callers|
    requires Exec(c, s0, past).value.callers[i].pc.Waiting? && HitsThroughout(c, Exec(c, s0, past).value, run)
    ensures var s := Exec(c, s0, past).value;
      var t := Exec(c, s, run).value;
      && |t.callers| == |s.callers| && s.callers[i].pc.wake <= s.now + 100
      && if StepsBy(run, i) == 0 then
           t.callers[i] == s.callers[i] && (t.now >= s.callers[i].pc.wake ==> Enabled(c, t, Step(i, Fetches)))
         else exists k: nat :: AnsweredAt(c, s, run, k, i, t.callers[i])
  {
    RunsStaySane(c, s0, past);
    var s := Exec(c, s0, past).value;
    assert Consistent(c, s.now, s.callers[i]);
    FirstHitAnswers(c, s, run, i);
    ExecThen(c, s0, past, run);
    RunsStaySane(c, s0, past + run);
  }

  lemma {:induction false} FirstHitAnswers(c: Config, s: System, run: Run, i: nat)
    requires i < |s.callers| && s.callers[i].pc.Waiting? && HitsThroughout(c, s, run)
    ensures |Exec(c, s, run).value.callers| == |s.callers|
    ensures var u := Exec(c, s, run).value.callers[i];
      if StepsBy(run, i) == 0 then u == s.callers[i] else exists k: nat :: AnsweredAt(c, s, run, k, i, u)
  {
    if run != [] {
      var n := |run| - 1;
      FirstHitAnswers(c, s, run[..n], i);
      var t := Exec(c, s, run[..n]).value;
      if StepsBy(run[..n], i) == 0 && StepsBy(run, i) > 0 {
        HitsAreTaken(c, t, i, run[n].fate);
        assert AnsweredAt(c, s, run, n, i, Exec(c, s, run).value.callers[i]);
      } else {
        OthersLeaveCaller(c, t, run[n], i);
        if StepsBy(run[..n], i) > 0 {
          var k: nat :| AnsweredAt(c, s, run[..n], k, i, t.callers[i]);
          StillAnswered(c, s, run, k, i, t.callers[i]);
        }
      }
    }
  }

  /** Nobody but the caller moves it, and nothing once it has finished. */
  lemma OthersLeaveCaller(c: Config, s: System, e: Event, i: nat)
    requires Enabled(c, s, e) && i < |s.callers|
    requires s.callers[i].pc.Finished? || !e.Step? || e.who != i
    ensures |Apply(c, s, e).callers| == |s.callers| && Apply(c, s, e).callers[i] == s.callers[i]
  {
  }

  lemma StillAnswered(c: Config, s: System, run: Run, k: nat, i: nat, u: Caller)
    requires i < |s.callers| && run != [] && AnsweredAt(c, s, run[..|run| - 1], k, i, u)
    ensures AnsweredAt(c, s, run, k, i, u)
  {
    assert run[..|run| - 1][..k] == run[..k];
  }

  /** What a caller stores is found for exactly the TTL, if nobody replaces it; a stored null is never found. */
  lemma StoredIsHitForItsTtl(c: Config, s: System, i: nat, ms: nat)
    requires Sane(c, s) && Enabled(c, s, Step(i, Fetches)) && s.callers[i].pc.Store?
    ensures var v := s.callers[i].pc.value;
      Hit(Apply(c, s, Step(i, Fetches)).(now := s.now + ms)) == if v.Data? && ms < c.ttl then Some(v) else None
  {
    assert Consistent(c, s.now, s.callers[i]);
  }

  /**
   SET NX on a lock that nobody deletes: the one who got it keeps everybody else out for
   lock_timeout seconds, to the millisecond.
   */
  lemma LockLastsItsTimeout(c: Config, s: System, i: nat, j: nat, ms: nat)
    requires Enabled(c, s, Step(i, Fetches)) && s.callers[i].pc.Locking?
    requires Apply(c, s, Step(i, Fetches)).callers[i].pc.Recheck?
    requires j < |s.callers| && j != i && s.callers[j].pc.Locking? && c.Valid()
    ensures var t := Apply(c, s, Step(i, Fetches)).(now := s.now + ms);
      Apply(c, t, Step(j, Fetches)).callers[j].pc
        == if ms >= c.lockTimeout * 1000 then Recheck(s.now + ms) else Waiting(c.lockTimeout * 10, s.now + ms + 100)
  {
  }
}
