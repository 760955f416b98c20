/**
 The stampede guarantee. While factories succeed, return something other than
 null and the entry neither expires nor is overwritten, callers on a cold key run
 the factory once between them and all get its value, as long as no lock holder can
 outlast the lock. Two details of the code carry the proof: the double-check after
 the lock, and lock_timeout * 10 polls of 0.1 s outlasting the lock. SingleFlightLimits
 shows that each of these assumptions is needed.
 */
module SingleFlight {
  import opened CacheProtocol
  import opened CacheExclusion

  /** Factories fetch, or misfire in one of the ways allowed; nothing overwrites or drops the entry. */
  predicate Quiet(e: Event, misfires: set<Fate>) {
    match e
    case Step(_, fate) => fate == Fetches || fate in misfires
    case WriteThrough(_) => false
    case Invalidate => false
    case _ => true
  }

  predicate Unexpired(s: System) {
    s.entry.Some? ==> s.now < s.entry.value.expiry
  }

  /** A possible run of a burst of calls: the entry is not taken away, and factories misfire only as allowed. */
  ghost predicate Burst(c: Config, s0: System, run: Run, misfires: set<Fate>) {
    && Exec(c, s0, run).Some?
    && Unexpired(Exec(c, s0, run).value)
    && (run != [] ==> Quiet(run[|run| - 1], misfires) && Burst(c, s0, run[..|run| - 1], misfires))
  }

  predicate Working(pc: Pc) {
    pc.Compute? || pc.Store?
  }

  /** Caller h holds the lock that expires at that instant, or earlier. */
  ghost predicate HeldUntil(c: Config, s: System, h: nat, expiry: int) {
    h < |s.callers| && Holds(s.callers[h].pc) && Since(s.callers[h].pc) + c.LockMs() <= expiry
  }

  ghost predicate SomeoneHolds(c: Config, s: System, expiry: int) {
    exists h: nat :: HeldUntil(c, s, h, expiry)
  }

  /** What each position of a caller says about the one factory run there may be. */
  ghost predicate Fits(c: Config, s: System, i: nat)
    requires i < |s.callers|
  {
    match s.callers[i].pc
    case Waiting(left, wake) =>
      left >= 1 && (s.entry.Some? || SomeoneHolds(c, s, wake + (left - 1) * POLL_MS))
    case Compute(held, _) => held.Some? && s.entry.None? && s.runs == 1 && s.produced == []
    case Store(held, v) => held.Some? && s.entry.None? && s.runs == 1 && s.produced == [v] && v.Data?
    case Release(_, o) => s.entry.Some? && o.Returned? && s.produced == [o.value]
    case Finished(o) => s.entry.Some? && o.Returned? && s.produced == [o.value]
    case _ => true
  }

  ghost predicate OneFlight(c: Config, s: System) {
    && Guarded(c, s)
    && Unexpired(s)
    && s.runs <= 1
    && (s.entry.Some? ==> s.runs == 1 && s.produced == [s.entry.value.value] && s.entry.value.value.Data?)
    && (s.entry.None? && s.runs == 1 ==> exists j :: 0 <= j < |s.callers| && Working(s.callers[j].pc))
    && (s.runs == 0 ==> s.produced == [])
    && (s.lock.Some? ==> SomeoneHolds(c, s, s.lock.value))
    && (forall i :: 0 <= i < |s.callers| ==> Fits(c, s, i))
  }

  lemma ColdOneFlight(c: Config, s: System)
    requires Cold(c, s)
    ensures OneFlight(c, s)
  {
  }

  /** Whoever held the lock still does, unless the mover let go. */
  lemma HolderStays(c: Config, s: System, i: nat, h: nat, expiry: int)
    requires Enabled(c, s, Step(i, Fetches)) && HeldUntil(c, s, h, expiry)
    requires i != h || Holds(Act(c, s, i, Fetches).callers[i].pc)
    requires c.selects >= 1
    ensures HeldUntil(c, Act(c, s, i, Fetches), h, expiry)
  {
  }

  lemma WaitersFit(c: Config, s: System, i: nat, j: nat)
    requires c.Valid() && c.maxHold < c.LockMs() && OneFlight(c, s) && Enabled(c, s, Step(i, Fetches))
    requires j < |s.callers| && j != i
    requires Act(c, s, i, Fetches).entry.Some? || Holds(Act(c, s, i, Fetches).callers[i].pc) || !Holds(s.callers[i].pc)
    requires s.entry.Some? ==> Act(c, s, i, Fetches).entry.Some?
    requires s.callers[j].pc.Waiting?
    ensures Fits(c, Act(c, s, i, Fetches), j)
  {
    var t := Act(c, s, i, Fetches);
    assert Fits(c, s, j);
    if t.entry.None? {
      var until := s.callers[j].pc.wake + (s.callers[j].pc.left - 1) * POLL_MS;
      assert SomeoneHolds(c, s, until);
      var h: nat :| HeldUntil(c, s, h, until);
      HolderStays(c, s, i, h, until);
    }
  }

  /** GET, by a caller that has not looked yet. */
  lemma StartStep(c: Config, s: System, i: nat)
    requires c.Valid() && c.maxHold < c.LockMs() && OneFlight(c, s) && Enabled(c, s, Step(i, Fetches))
    requires s.callers[i].pc.Start?
    ensures OneFlight(c, Act(c, s, i, Fetches))
  {
    OthersFit(c, s, i);
    KeepsHolderAndWorker(c, s, i);
  }

  /** The others keep fitting whenever the step neither ends the flight nor starts one. */
  lemma OthersFit(c: Config, s: System, i: nat)
    requires c.Valid() && c.maxHold < c.LockMs() && OneFlight(c, s) && Enabled(c, s, Step(i, Fetches))
    requires var t := Act(c, s, i, Fetches);
      && t.entry == s.entry && t.runs == s.runs && t.produced == s.produced
      && (t.entry.Some? || Holds(t.callers[i].pc) || !Holds(s.callers[i].pc))
    ensures forall j :: 0 <= j < |s.callers| && j != i ==> Fits(c, Act(c, s, i, Fetches), j)
  {
    forall j | 0 <= j < |s.callers| && j != i
      ensures Fits(c, Act(c, s, i, Fetches), j)
    {
      assert Fits(c, s, j);
      if s.callers[j].pc.Waiting? {
        WaitersFit(c, s, i, j);
      }
    }
  }

  lemma KeepsHolderAndWorker(c: Config, s: System, i: nat)
    requires c.Valid() && OneFlight(c, s) && Enabled(c, s, Step(i, Fetches))
    requires var t := Act(c, s, i, Fetches);
      && t.lock == s.lock && t.entry == s.entry && t.runs == s.runs
      && (Holds(t.callers[i].pc) <==> Holds(s.callers[i].pc))
      && (Working(t.callers[i].pc) <==> Working(s.callers[i].pc))
    ensures var t := Act(c, s, i, Fetches);
      && (t.lock.Some? ==> SomeoneHolds(c, t, t.lock.value))
      && (t.entry.None? && t.runs == 1 ==> exists j :: 0 <= j < |t.callers| && Working(t.callers[j].pc))
  {
    var t := Act(c, s, i, Fetches);
    if t.lock.Some? {
      var h: nat :| HeldUntil(c, s, h, s.lock.value);
      HolderStays(c, s, i, h, s.lock.value);
    }
    if t.entry.None? && t.runs == 1 {
      var j :| 0 <= j < |s.callers| && Working(s.callers[j].pc);
      assert Working(t.callers[j].pc);
    }
  }

  /** A sleeper's last poll cannot miss: by then the lock it lost to would have run out under its holder. */
  lemma PollerFits(c: Config, s: System, i: nat)
    requires c.Valid() && c.maxHold < c.LockMs() && OneFlight(c, s) && Enabled(c, s, Step(i, Fetches))
    requires s.callers[i].pc.Waiting?
    ensures Fits(c, Act(c, s, i, Fetches), i)
    ensures var t := Act(c, s, i, Fetches); t.callers[i].pc.Waiting? || t.callers[i].pc.Finished?
  {
    var t := Act(c, s, i, Fetches);
    assert Fits(c, s, i);
    var left, wake := s.callers[i].pc.left, s.callers[i].pc.wake;
    if s.entry.None? {
      var until := wake + (left - 1) * POLL_MS;
      assert SomeoneHolds(c, s, until);
      var h: nat :| HeldUntil(c, s, h, until);
      assert left >= 2;
      HolderStays(c, s, i, h, until);
      var last := t.callers[i].pc.wake + (t.callers[i].pc.left - 1) * POLL_MS;
      assert until <= last;
      assert HeldUntil(c, t, h, last);
    }
  }

  lemma PollStep(c: Config, s: System, i: nat)
    requires c.Valid() && c.maxHold < c.LockMs() && OneFlight(c, s) && Enabled(c, s, Step(i, Fetches))
    requires s.callers[i].pc.Waiting?
    ensures OneFlight(c, Act(c, s, i, Fetches))
  {
    PollerFits(c, s, i);
    OthersFit(c, s, i);
    KeepsHolderAndWorker(c, s, i);
  }

  lemma LockStep(c: Config, s: System, i: nat)
    requires c.Valid() && c.maxHold < c.LockMs() && OneFlight(c, s) && Enabled(c, s, Step(i, Fetches))
    requires s.callers[i].pc.Locking?
    ensures OneFlight(c, Act(c, s, i, Fetches))
  {
    var t := Act(c, s, i, Fetches);
    GuardedStep(c, s, Step(i, Fetches));
    OthersFit(c, s, i);
    if LockFree(s) {
      assert HeldUntil(c, t, i, t.lock.value);
      if t.entry.None? && t.runs == 1 {
        var j :| 0 <= j < |s.callers| && Working(s.callers[j].pc);
        assert Working(t.callers[j].pc);
      }
    } else {
      KeepsHolderAndWorker(c, s, i);
      var h: nat :| HeldUntil(c, s, h, s.lock.value);
      assert Since(s.callers[h].pc) <= s.now;
      HolderStays(c, s, i, h, Since(s.callers[h].pc) + c.LockMs());
      var last := t.callers[i].pc.wake + (t.callers[i].pc.left - 1) * POLL_MS;
      assert last == s.now + c.LockMs();
      assert HeldUntil(c, t, h, last);
    }
  }

  lemma RecheckStep(c: Config, s: System, i: nat)
    requires c.Valid() && c.maxHold < c.LockMs() && OneFlight(c, s) && Enabled(c, s, Step(i, Fetches))
    requires s.callers[i].pc.Recheck?
    ensures OneFlight(c, Act(c, s, i, Fetches))
  {
    var t := Act(c, s, i, Fetches);
    GuardedStep(c, s, Step(i, Fetches));
    if s.lock.Some? {
      var h: nat :| HeldUntil(c, s, h, s.lock.value);
      HolderStays(c, s, i, h, s.lock.value);
    }
    if s.entry.None? {
      NobodyElseWorks(c, s, i);
      assert Working(t.callers[i].pc);
      forall j | 0 <= j < |s.callers| && j != i
        ensures Fits(c, t, j)
      {
        assert Fits(c, s, j);
        if s.callers[j].pc.Waiting? {
          WaitersFit(c, s, i, j);
        }
      }
    } else {
      OthersFit(c, s, i);
    }
  }

  /** The holder is alone, so no factory runs beside it; an unproductive past is no run at all. */
  lemma NobodyElseWorks(c: Config, s: System, i: nat)
    requires OneFlight(c, s) && i < |s.callers| && s.callers[i].pc.Recheck? && s.entry.None?
    ensures s.runs == 0
    ensures forall j :: 0 <= j < |s.callers| ==> !Working(s.callers[j].pc)
  {
    forall j | 0 <= j < |s.callers|
      ensures !Working(s.callers[j].pc)
    {
      assert Fits(c, s, j);
      if j < i {
        assert !Holds(s.callers[j].pc);
      } else if i < j {
        assert !Holds(s.callers[j].pc);
      }
    }
  }

  lemma ComputeStep(c: Config, s: System, i: nat)
    requires c.Valid() && c.maxHold < c.LockMs() && OneFlight(c, s) && Enabled(c, s, Step(i, Fetches))
    requires s.callers[i].pc.Compute?
    ensures OneFlight(c, Act(c, s, i, Fetches))
  {
    var t := Act(c, s, i, Fetches);
    assert Fits(c, s, i);
    GuardedStep(c, s, Step(i, Fetches));
    if s.lock.Some? {
      var h: nat :| HeldUntil(c, s, h, s.lock.value);
      HolderStays(c, s, i, h, s.lock.value);
    }
    assert Working(t.callers[i].pc);
    forall j | 0 <= j < |s.callers| && j != i
      ensures Fits(c, t, j)
    {
      assert Fits(c, s, j);
      assert !Holds(s.callers[j].pc);
      if s.callers[j].pc.Waiting? {
        WaitersFit(c, s, i, j);
      }
    }
  }

  lemma StoreStep(c: Config, s: System, i: nat)
    requires c.Valid() && c.maxHold < c.LockMs() && OneFlight(c, s) && Enabled(c, s, Step(i, Fetches))
    requires s.callers[i].pc.Store? && Unexpired(Act(c, s, i, Fetches))
    ensures OneFlight(c, Act(c, s, i, Fetches))
  {
    var t := Act(c, s, i, Fetches);
    assert Fits(c, s, i);
    GuardedStep(c, s, Step(i, Fetches));
    if s.lock.Some? {
      var h: nat :| HeldUntil(c, s, h, s.lock.value);
      HolderStays(c, s, i, h, s.lock.value);
    }
    forall j | 0 <= j < |s.callers| && j != i
      ensures Fits(c, t, j)
    {
      assert Fits(c, s, j);
      assert !Holds(s.callers[j].pc);
    }
  }

  lemma ReleaseStep(c: Config, s: System, i: nat)
    requires c.Valid() && c.maxHold < c.LockMs() && OneFlight(c, s) && Enabled(c, s, Step(i, Fetches))
    requires s.callers[i].pc.Release?
    ensures OneFlight(c, Act(c, s, i, Fetches))
  {
    assert Fits(c, s, i);
    GuardedStep(c, s, Step(i, Fetches));
    OthersFit(c, s, i);
  }

  lemma QuietStep(c: Config, s: System, e: Event)
    requires c.Valid() && c.maxHold < c.LockMs() && OneFlight(c, s) && Enabled(c, s, e) && Quiet(e, {})
    requires Unexpired(Apply(c, s, e))
    ensures OneFlight(c, Apply(c, s, e))
  {
    if e.Step? {
      var pc := s.callers[e.who].pc;
      if pc.Start? {
        StartStep(c, s, e.who);
      } else if pc.Locking? {
        LockStep(c, s, e.who);
      } else if pc.Recheck? {
        RecheckStep(c, s, e.who);
      } else if pc.Compute? {
        ComputeStep(c, s, e.who);
      } else if pc.Store? {
        StoreStep(c, s, e.who);
      } else if pc.Release? {
        ReleaseStep(c, s, e.who);
      } else {
        PollStep(c, s, e.who);
      }
    } else {
      GuardedStep(c, s, e);
      CallersUntouched(c, s, Apply(c, s, e));
    }
  }

  lemma CallersUntouched(c: Config, s: System, t: System)
    requires OneFlight(c, s) && Guarded(c, t) && Unexpired(t)
    requires t.callers == s.callers && t.entry == s.entry && t.lock == s.lock && t.runs == s.runs
      && t.produced == s.produced
    ensures OneFlight(c, t)
  {
    assert forall h: nat, expiry: int :: HeldUntil(c, s, h, expiry) <==> HeldUntil(c, t, h, expiry);
    assert forall expiry: int :: SomeoneHolds(c, s, expiry) ==> SomeoneHolds(c, t, expiry);
    forall i | 0 <= i < |t.callers|
      ensures Fits(c, t, i)
    {
      assert Fits(c, s, i);
    }
  }

  lemma {:induction false} BurstsFlyOnce(c: Config, s0: System, run: Run, misfires: set<Fate>)
    requires c.Valid() && c.maxHold < c.LockMs() && Cold(c, s0) && Burst(c, s0, run, misfires)
    requires misfires <= {Fetches}
    ensures OneFlight(c, Exec(c, s0, run).value)
  {
    if run == [] {
      ColdOneFlight(c, s0);
    } else {
      BurstsFlyOnce(c, s0, run[..|run| - 1], misfires);
      QuietStep(c, Exec(c, s0, run[..|run| - 1]).value, run[|run| - 1]);
    }
  }

  /** Once anyone has finished, the factory has run exactly once and everyone who finished has its value. */
  lemma AllGetTheOneValue(c: Config, s0: System, run: Run, i: nat)
    requires c.Valid() && c.maxHold < c.lockTimeout * 1000 && Cold(c, s0) && Burst(c, s0, run, {})
    requires i < |Exec(c, s0, run).value.callers| && Exec(c, s0, run).value.callers[i].pc.Finished?
    ensures var s := Exec(c, s0, run).value;
      && s.runs == 1 && |s.produced| == 1
      && forall j :: 0 <= j < |s.callers| && s.callers[j].pc.Finished? ==>
           s.callers[j].pc.outcome.Returned? && s.callers[j].pc.outcome.value == s.produced[0]
  {
    BurstsFlyOnce(c, s0, run, {});
    var s := Exec(c, s0, run).value;
    assert Fits(c, s, i);
    forall j | 0 <= j < |s.callers| && s.callers[j].pc.Finished?
      ensures s.callers[j].pc.outcome.Returned? && s.callers[j].pc.outcome.value == s.produced[0]
    {
      assert Fits(c, s, j);
    }
  }
}
