/**
 When a read sees a commit. After a refresh the next read is not fresh in general,
 whichever way round the refresh commits and invalidates; it is fresh, and so is
 everything handed out from then on, exactly when nothing older than the commit is
 left that can still be served: no live entry, no write-through on its way, no
 reader that has read and not yet stored.
 */
module CacheFreshness {
  import opened CacheProtocol
  import opened CacheSafety
  import opened CacheStaleness

  /** Read of commit v or a later one. */
  predicate FreshParts(parts: seq<Part>, v: nat) {
    forall p :: p in parts ==> p.version >= v
  }

  predicate FreshValue(x: Value, v: nat) {
    x.Data? ==> FreshParts(x.parts, v)
  }

  predicate LiveEntryFresh(s: System, v: nat) {
    s.entry.Some? && s.now < s.entry.value.expiry ==> FreshValue(s.entry.value.value, v)
  }

  predicate PendingFresh(s: System, v: nat) {
    forall x :: x in s.pending ==> FreshValue(x, v)
  }

  predicate ReadersFresh(s: System, v: nat) {
    forall i :: 0 <= i < |s.callers| ==> FreshParts(Unwritten(s.callers[i].pc), v)
  }

  /** Nothing older than commit v can still be served. */
  predicate Clean(s: System, v: nat) {
    LiveEntryFresh(s, v) && PendingFresh(s, v) && ReadersFresh(s, v)
  }

  /** The caller has been handed its answer, be it that it still has to delete the lock. */
  predicate Answered(pc: Pc) {
    pc.Release? || pc.Finished?
  }

  predicate FreshAnswer(pc: Pc, v: nat) {
    Answered(pc) && pc.outcome.Returned? ==> FreshValue(pc.outcome.value, v)
  }

  /** No run from here hands an older value to a caller that begins its read in it. */
  ghost predicate ReadsStayFresh(c: Config, s: System, v: nat) {
    forall run: Run, i: nat ::
      Exec(c, s, run).Some? && i < |s.callers| && i < |Exec(c, s, run).value.callers| && s.callers[i].pc == Start ==>
        FreshAnswer(Exec(c, s, run).value.callers[i].pc, v)
  }

  /** No run from here hands an older value to anybody not answered yet. */
  ghost predicate AnswersStayFresh(c: Config, s: System, v: nat) {
    forall run: Run, i: nat ::
      Exec(c, s, run).Some? && i < |s.callers| && i < |Exec(c, s, run).value.callers| && !Answered(s.callers[i].pc) ==>
        FreshAnswer(Exec(c, s, run).value.callers[i].pc, v)
  }

  // ------------------------------------------------- clean stays clean

  lemma StepStaysClean(c: Config, s: System, i: nat, fate: Fate, v: nat)
    requires Clean(s, v) && v < |s.commits| && Enabled(c, s, Step(i, fate))
    ensures Clean(Act(c, s, i, fate), v)
    ensures !Answered(s.callers[i].pc) ==> FreshAnswer(Act(c, s, i, fate).callers[i].pc, v)
  {
    var t, pc := Act(c, s, i, fate), s.callers[i].pc;
    assert FreshParts(Unwritten(pc), v);
    assert FreshParts(Unwritten(t.callers[i].pc), v);
  }

  lemma EventStaysClean(c: Config, s: System, e: Event, v: nat)
    requires Clean(s, v) && v < |s.commits| && Enabled(c, s, e) && !e.Step?
    ensures Clean(Apply(c, s, e), v) && v < |Apply(c, s, e).commits|
  {
    var t := Apply(c, s, e);
    assert t.callers == s.callers;
  }

  lemma {:induction false} CleanRunsHandOutFresh(c: Config, s: System, run: Run, v: nat)
    requires Clean(s, v) && v < |s.commits| && Exec(c, s, run).Some?
    ensures var t := Exec(c, s, run).value;
      && Clean(t, v) && v < |t.commits| && |t.callers| == |s.callers|
      && forall i :: 0 <= i < |s.callers| && !Answered(s.callers[i].pc) ==> FreshAnswer(t.callers[i].pc, v)
  {
    if run != [] {
      var before, e := run[..|run| - 1], run[|run| - 1];
      CleanRunsHandOutFresh(c, s, before, v);
      var m := Exec(c, s, before).value;
      if e.Step? {
        StepStaysClean(c, m, e.who, e.fate, v);
      } else {
        EventStaysClean(c, m, e, v);
      }
    }
  }

  // ------------------------------------------- what is left comes out

  lemma StaleEntryIsServed(c: Config, s: System, j: nat, v: nat) returns (run: Run)
    requires Sane(c, s) && j < |s.callers| && s.callers[j].pc == Start && !LiveEntryFresh(s, v)
    ensures Exec(c, s, run).Some? && |Exec(c, s, run).value.callers| == |s.callers|
    ensures !FreshAnswer(Exec(c, s, run).value.callers[j].pc, v)
  {
    ExecOne(c, s, Step(j, Fetches));
    run := [Step(j, Fetches)];
  }

  /** One event first, then a run that serves something old. */
  lemma After(c: Config, s: System, e: Event, rest: Run) returns (run: Run)
    requires Enabled(c, s, e) && Exec(c, Apply(c, s, e), rest).Some?
    ensures Exec(c, s, run) == Exec(c, Apply(c, s, e), rest)
  {
    ExecOne(c, s, e);
    ExecThen(c, s, [e], rest);
    run := [e] + rest;
  }

  lemma StalePushIsServed(c: Config, s: System, x: Value, j: nat, v: nat) returns (run: Run)
    requires c.Valid() && c.pushTtl >= 1 && Sane(c, s) && j < |s.callers| && s.callers[j].pc == Start
    requires x in s.pending && !FreshValue(x, v)
    ensures Exec(c, s, run).Some? && |Exec(c, s, run).value.callers| == |s.callers|
    ensures !FreshAnswer(Exec(c, s, run).value.callers[j].pc, v)
  {
    EnvironmentSane(c, s, WriteThrough(x));
    run := StaleEntryIsServed(c, Apply(c, s, WriteThrough(x)), j, v);
    run := After(c, s, WriteThrough(x), run);
  }

  /** A reader with something old goes on reading, stores it, and the next one gets it. */
  lemma {:induction false} StaleReadIsServed(c: Config, s: System, i: nat, j: nat, v: nat) returns (run: Run)
    requires c.Valid() && c.ttl >= 1 && c.pushTtl >= 1 && Sane(c, s)
    requires j < |s.callers| && s.callers[j].pc == Start
    requires i < |s.callers| && !FreshParts(Unwritten(s.callers[i].pc), v)
    ensures Exec(c, s, run).Some? && |Exec(c, s, run).value.callers| == |s.callers|
    ensures !FreshAnswer(Exec(c, s, run).value.callers[j].pc, v)
    decreases StepsLeft(c, s.callers[i].pc)
  {
    var step, pc := Step(i, Fetches), s.callers[i].pc;
    assert Consistent(c, s.now, s.callers[i]);
    var t := Apply(c, s, step);
    ActSane(c, s, i, Fetches);
    StepsDecrease(c, pc, Answer(c, s, pc, Fetches));
    if pc.Store? {
      run := StaleEntryIsServed(c, t, j, v);
    } else {
      assert forall p :: p in Unwritten(pc) ==> p in Unwritten(t.callers[i].pc);
      run := StaleReadIsServed(c, t, i, j, v);
    }
    run := After(c, s, step, run);
  }

  lemma UncleanServesStale(c: Config, s: System, j: nat, v: nat) returns (run: Run)
    requires c.Valid() && c.ttl >= 1 && c.pushTtl >= 1 && Sane(c, s)
    requires j < |s.callers| && s.callers[j].pc == Start && !Clean(s, v)
    ensures Exec(c, s, run).Some? && |Exec(c, s, run).value.callers| == |s.callers|
    ensures !FreshAnswer(Exec(c, s, run).value.callers[j].pc, v)
  {
    if !LiveEntryFresh(s, v) {
      run := StaleEntryIsServed(c, s, j, v);
    } else if !PendingFresh(s, v) {
      var x :| x in s.pending && !FreshValue(x, v);
      run := StalePushIsServed(c, s, x, j, v);
    } else {
      var i :| 0 <= i < |s.callers| && !FreshParts(Unwritten(s.callers[i].pc), v);
      run := StaleReadIsServed(c, s, i, j, v);
    }
  }

  /**
   From any reachable state with commit v in it and a caller yet to begin: every read
   that begins sees v or later, and so does everybody else not yet answered, in every
   continuation, if and only if the state is clean of anything older.
   */
  lemma ReadsFreshIffClean(c: Config, s0: System, past: Run, j: nat, v: nat)
    requires c.Valid() && c.ttl >= 1 && c.pushTtl >= 1 && Cold(c, s0) && Exec(c, s0, past).Some?
    requires v < |Exec(c, s0, past).value.commits|
    requires j < |Exec(c, s0, past).value.callers| && Exec(c, s0, past).value.callers[j].pc == Start
    ensures var s := Exec(c, s0, past).value;
      && (ReadsStayFresh(c, s, v) <==> Clean(s, v))
      && (AnswersStayFresh(c, s, v) <==> Clean(s, v))
  {
    var s := Exec(c, s0, past).value;
    if Clean(s, v) {
      forall run: Run, i: nat |
        Exec(c, s, run).Some? && i < |s.callers| && i < |Exec(c, s, run).value.callers| && !Answered(s.callers[i].pc)
        ensures FreshAnswer(Exec(c, s, run).value.callers[i].pc, v)
      {
        CleanRunsHandOutFresh(c, s, run, v);
      }
    } else {
      RunsStaySane(c, s0, past);
      var run := UncleanServesStale(c, s, j, v);
      assert Exec(c, s, run).Some? && !FreshAnswer(Exec(c, s, run).value.callers[j].pc, v);
    }
  }

  // ------------------------------------------------- right after a commit

  /**
   Nothing read so far can still be served: no live value, no write-through on its way,
   nobody between SELECT and SETEX.
   */
  predicate Quiescent(s: System) {
    Hit(s).None? && s.pending == {} && forall i :: 0 <= i < |s.callers| ==> Unwritten(s.callers[i].pc) == []
  }

  /** Every part read before a commit is older than it. */
  lemma AllPartsOlder(c: Config, s: System, x: Value)
    requires c.Valid() && Ordered(s) && ValueSound(c, s, x) && x.Data?
    ensures !FreshValue(x, |s.commits|)
  {
    assert PartSound(s, x.parts[0], 0, x.writer);
    assert x.parts[0] in x.parts;
  }

  lemma ReadersOlder(c: Config, s: System, i: nat)
    requires Sound(c, s) && i < |s.callers|
    ensures FreshParts(Unwritten(s.callers[i].pc), |s.commits|) <==> Unwritten(s.callers[i].pc) == []
  {
    var parts := Unwritten(s.callers[i].pc);
    assert CallerSound(c, s, s.callers[i].pc);
    if parts != [] {
      assert PartSound(s, parts[0], 0, Reader);
      assert parts[0] in parts;
    }
  }

  lemma CommitIsCleanIffQuiescent(c: Config, s: System, view: View)
    requires c.Valid() && Sound(c, s) && Enabled(c, s, CommitView(view, false))
    ensures Clean(Apply(c, s, CommitView(view, false)), |s.commits|) <==> Quiescent(s)
  {
    var v := |s.commits|;
    assert LiveEntryFresh(s, v) <==> Hit(s).None? by {
      if Hit(s).Some? {
        AllPartsOlder(c, s, Hit(s).value);
      }
    }
    assert PendingFresh(s, v) <==> s.pending == {} by {
      if x :| x in s.pending {
        AllPartsOlder(c, s, x);
      }
    }
    forall i | 0 <= i < |s.callers|
      ensures FreshParts(Unwritten(s.callers[i].pc), v) <==> Unwritten(s.callers[i].pc) == []
    {
      ReadersOlder(c, s, i);
    }
  }

  /**
   An on-demand refresh: the reads that begin after its commit all see it if and only if,
   at the commit, nothing has been stored since its invalidation, no write-through is on
   its way, and no reader stands between SELECT and SETEX.
   */
  lemma NextReadFreshIffQuiescent(c: Config, s0: System, past: Run, view: View, j: nat)
    requires c.Valid() && c.ttl >= 1 && c.pushTtl >= 1 && Cold(c, s0) && Exec(c, s0, past).Some?
    requires Enabled(c, Exec(c, s0, past).value, CommitView(view, false))
    requires j < |Exec(c, s0, past).value.callers| && Exec(c, s0, past).value.callers[j].pc == Start
    ensures var s := Exec(c, s0, past).value;
      ReadsStayFresh(c, Apply(c, s, CommitView(view, false)), |s.commits|) <==> Quiescent(s)
  {
    var s, commit := Exec(c, s0, past).value, CommitView(view, false);
    RunsStaySound(c, s0, past);
    CommitIsCleanIffQuiescent(c, s, view);
    ExecSnoc(c, s0, past, commit);
    ReadsFreshIffClean(c, s0, past + [commit], j, |s.commits|);
  }
}
