/**
 How old a served value can be. Readers, the worker's write-through, on-demand
 refreshes and their invalidations, and expiry all race on one key; the value a
 caller is handed was nevertheless the committed one, part by part, at an instant
 no further back than the TTL of whoever stored it plus the longest gap from
 reading or committing to SETEX. Invalidation does not improve on that bound.
 */
module CacheStaleness {
  import opened Wrappers
  import opened CacheProtocol
  import opened CacheExclusion
  import RefreshLog

  /** Commit k was the database's state at that instant. */
  predicate CurrentAt(s: System, k: nat, instant: int)
    requires k < |s.commits|
  {
    s.commits[k].at <= instant && (k + 1 < |s.commits| ==> instant <= s.commits[k + 1].at)
  }

  /** Component j of the committed view had this content at some instant of the interval. */
  ghost predicate CommittedDuring(s: System, j: nat, field: Field, from: int, to: int) {
    exists k: nat, instant: int ::
      k < |s.commits| && CurrentAt(s, k, instant) && from <= instant <= to &&
      j < |s.commits[k].view| && s.commits[k].view[j] == field
  }

  predicate PartSound(s: System, p: Part, j: nat, w: Writer) {
    && p.version < |s.commits|
    && j < |s.commits[p.version].view|
    && p.field == s.commits[p.version].view[j]
    && p.readAt <= s.now
    && CurrentAt(s, p.version, p.readAt)
    && p.field.refreshedAt <= p.readAt
    && p.ageSeconds == if w == Reader then (p.readAt - p.field.refreshedAt) / 1000 else 0
  }

  ghost predicate PartsSound(s: System, parts: seq<Part>, w: Writer) {
    forall j :: 0 <= j < |parts| ==> PartSound(s, parts[j], j, w)
  }

  /** Every part was read, and its reported age was right, recently enough at that instant. */
  ghost predicate Recent(c: Config, v: Value, instant: int, slack: int) {
    v.Data? ==> forall j :: 0 <= j < |v.parts| ==>
      && instant <= v.parts[j].readAt + c.maxWrite + slack
      && (v.writer == Worker ==> instant <= v.parts[j].field.refreshedAt + c.maxRun + slack)
  }

  ghost predicate ValueSound(c: Config, s: System, v: Value) {
    v.Data? ==> |v.parts| == c.selects && PartsSound(s, v.parts, v.writer)
  }

  ghost predicate Served(c: Config, s: System, o: Outcome) {
    o.Returned? ==>
      && o.at <= s.now
      && ValueSound(c, s, o.value)
      && (o.value.Data? ==>
           && Recent(c, o.value, o.at, c.Ttl(o.value.writer))
           && forall p :: p in o.value.parts ==> p.readAt <= o.at)
  }

  ghost predicate CallerSound(c: Config, s: System, pc: Pc) {
    match pc
    case Compute(_, parts) => PartsSound(s, parts, Reader)
    case Store(_, v) => ValueSound(c, s, v) && (v.Data? ==> v.writer == Reader)
    case Release(_, o) => Served(c, s, o)
    case Finished(o) => Served(c, s, o)
    case _ => true
  }

  ghost predicate Ordered(s: System) {
    && s.commits != []
    && (forall k :: 0 <= k < |s.commits| ==> s.commits[k].at <= s.now)
    && (forall k, f :: 0 <= k < |s.commits| && f in s.commits[k].view ==> f.refreshedAt <= s.commits[k].at)
  }

  ghost predicate Sound(c: Config, s: System) {
    && Ordered(s)
    && (forall k :: 0 <= k < |s.commits| ==> |s.commits[k].view| == c.selects)
    && Timely(c, s)
    && (forall i :: 0 <= i < |s.callers| ==> CallerSound(c, s, s.callers[i].pc))
    && (forall v :: v in s.pending ==> v.Data? && v.writer == Worker && ValueSound(c, s, v))
    && (s.entry.Some? ==>
         var v := s.entry.value.value;
         ValueSound(c, s, v) && (v.Data? ==> Recent(c, v, s.entry.value.expiry, c.Ttl(v.writer))))
  }

  /** Time passing and commits arriving do not change what a part was read from. */
  lemma PartStaysSound(s: System, t: System, p: Part, j: nat, w: Writer)
    requires PartSound(s, p, j, w) && s.commits <= t.commits && s.now <= t.now
    requires forall k :: |s.commits| <= k < |t.commits| ==> s.now <= t.commits[k].at
    ensures PartSound(t, p, j, w)
  {
  }

  ghost predicate Extends(s: System, t: System) {
    && s.commits <= t.commits
    && s.now <= t.now
    && forall k :: |s.commits| <= k < |t.commits| ==> s.now <= t.commits[k].at
  }

  lemma ValueStaysSound(c: Config, s: System, t: System, v: Value)
    requires ValueSound(c, s, v) && Extends(s, t)
    ensures ValueSound(c, t, v)
  {
    if v.Data? {
      PartsStaySound(s, t, v.parts, v.writer);
    }
  }

  lemma PartsStaySound(s: System, t: System, parts: seq<Part>, w: Writer)
    requires PartsSound(s, parts, w) && Extends(s, t)
    ensures PartsSound(t, parts, w)
  {
    forall j | 0 <= j < |parts|
      ensures PartSound(t, parts[j], j, w)
    {
      PartStaysSound(s, t, parts[j], j, w);
    }
  }

  lemma CallerStaysSound(c: Config, s: System, t: System, pc: Pc)
    requires CallerSound(c, s, pc) && Extends(s, t)
    ensures CallerSound(c, t, pc)
  {
    match pc {
      case Compute(_, parts) => PartsStaySound(s, t, parts, Reader);
      case Store(_, v) => ValueStaysSound(c, s, t, v);
      case Release(_, o) => if o.Returned? { ValueStaysSound(c, s, t, o.value); }
      case Finished(o) => if o.Returned? { ValueStaysSound(c, s, t, o.value); }
      case _ =>
    }
  }

  lemma ColdIsSound(c: Config, s: System)
    requires Cold(c, s)
    ensures Sound(c, s)
  {
  }

  /** A hit is served before its expiry, so the entry's recency carries over to the instant of the GET. */
  lemma HitIsServed(c: Config, s: System)
    requires Sound(c, s) && Hit(s).Some?
    ensures Served(c, s, Returned(Hit(s).value, s.now))
  {
  }

  lemma ReadIsSound(c: Config, s: System, j: nat)
    requires Sound(c, s) && j < c.selects
    ensures PartSound(s, ReadPart(s, j), j, Reader)
  {
    assert s.commits[Latest(s)].view[j] in s.commits[Latest(s)].view;
  }

  /** One SELECT more keeps what has been read sound. */
  lemma ReadingSound(c: Config, s: System, i: nat, fate: Fate)
    requires c.Valid() && Sound(c, s) && Enabled(c, s, Step(i, fate)) && s.callers[i].pc.Compute?
    ensures CallerSound(c, s, Act(c, s, i, fate).callers[i].pc)
  {
    var parts := s.callers[i].pc.parts;
    assert CallerSound(c, s, s.callers[i].pc);
    ReadIsSound(c, s, |parts|);
    assert PartsSound(s, parts + [ReadPart(s, |parts|)], Reader);
  }

  /** The mover's own position after its step. */
  lemma MoverSound(c: Config, s: System, i: nat, fate: Fate)
    requires c.Valid() && Sound(c, s) && Enabled(c, s, Step(i, fate))
    ensures CallerSound(c, s, Act(c, s, i, fate).callers[i].pc)
  {
    var pc := s.callers[i].pc;
    assert CallerSound(c, s, pc);
    if pc.Compute? {
      ReadingSound(c, s, i, fate);
    } else if pc.Store? {
      StoredIsServed(c, s, i, pc.value);
    } else if Hit(s).Some? {
      HitIsServed(c, s);
    }
  }

  /** A value is returned at the instant it is stored, with its reads still recent. */
  lemma StoredIsServed(c: Config, s: System, i: nat, v: Value)
    requires Sound(c, s) && i < |s.callers| && s.callers[i].pc.Store? && s.callers[i].pc.value == v
    ensures Served(c, s, Returned(v, s.now))
  {
    var pc := s.callers[i].pc;
    assert CallerSound(c, s, pc);
    if v.Data? {
      forall p | p in v.parts
        ensures s.now <= p.readAt + c.maxWrite && p.readAt <= s.now
      {
        assert p in Unwritten(pc);
        var j :| 0 <= j < |v.parts| && v.parts[j] == p;
        assert PartSound(s, p, j, Reader);
      }
    }
  }

  lemma ActTimely(c: Config, s: System, i: nat, fate: Fate)
    requires c.Valid() && Timely(c, s) && Enabled(c, s, Step(i, fate))
    ensures Timely(c, Act(c, s, i, fate))
  {
    var t := Act(c, s, i, fate);
    var pc := s.callers[i].pc;
    forall j, p | 0 <= j < |t.callers| && p in Unwritten(t.callers[j].pc)
      ensures t.now <= p.readAt + c.maxWrite
    {
      if j != i {
        assert p in Unwritten(s.callers[j].pc);
      } else {
        assert pc.Compute?;
        assert p in Unwritten(pc) || p.readAt == s.now;
      }
    }
  }

  lemma StoredIsRecent(c: Config, s: System, i: nat, fate: Fate)
    requires c.Valid() && Sound(c, s) && Enabled(c, s, Step(i, fate)) && s.callers[i].pc.Store?
    ensures var e := Act(c, s, i, fate).entry.value;
      ValueSound(c, s, e.value) && (e.value.Data? ==> Recent(c, e.value, e.expiry, c.Ttl(e.value.writer)))
  {
    var v := s.callers[i].pc.value;
    assert CallerSound(c, s, s.callers[i].pc);
    if v.Data? {
      forall j | 0 <= j < |v.parts|
        ensures s.now <= v.parts[j].readAt + c.maxWrite
      {
        assert v.parts[j] in Unwritten(s.callers[i].pc);
      }
    }
  }

  lemma StepSound(c: Config, s: System, i: nat, fate: Fate)
    requires c.Valid() && Sound(c, s) && Enabled(c, s, Step(i, fate))
    ensures Sound(c, Act(c, s, i, fate))
  {
    var t := Act(c, s, i, fate);
    ActTimely(c, s, i, fate);
    MoverSound(c, s, i, fate);
    forall j | 0 <= j < |t.callers|
      ensures CallerSound(c, t, t.callers[j].pc)
    {
      assert j != i ==> CallerSound(c, s, s.callers[j].pc);
      CallerStaysSound(c, s, t, t.callers[j].pc);
    }
    forall v | v in t.pending
      ensures ValueSound(c, t, v)
    {
      ValueStaysSound(c, s, t, v);
    }
    if s.callers[i].pc.Store? {
      StoredIsRecent(c, s, i, fate);
    }
    if t.entry.Some? {
      ValueStaysSound(c, s, t, t.entry.value.value);
    }
  }

  lemma EnvironmentSound(c: Config, s: System, e: Event)
    requires c.Valid() && Sound(c, s) && Enabled(c, s, e) && !e.Step?
    requires !e.CommitView?
    ensures Sound(c, Apply(c, s, e))
  {
    var t := Apply(c, s, e);
    forall j | 0 <= j < |t.callers|
      ensures CallerSound(c, t, t.callers[j].pc)
    {
      CallerStaysSound(c, s, t, s.callers[j].pc);
    }
    forall v | v in t.pending
      ensures ValueSound(c, t, v)
    {
      ValueStaysSound(c, s, t, v);
    }
    if t.entry.Some? {
      var v := t.entry.value.value;
      if e.WriteThrough? {
        assert v in s.pending;
        forall j | 0 <= j < |v.parts|
          ensures s.now <= v.parts[j].readAt + c.maxWrite && s.now <= v.parts[j].field.refreshedAt + c.maxRun
        {
          assert v.parts[j] in v.parts;
        }
      }
      ValueStaysSound(c, s, t, v);
    }
  }

  lemma CommitSound(c: Config, s: System, view: View, writesThrough: bool)
    requires c.Valid() && Sound(c, s) && Enabled(c, s, CommitView(view, writesThrough))
    ensures Sound(c, Apply(c, s, CommitView(view, writesThrough)))
  {
    var t := Apply(c, s, CommitView(view, writesThrough));
    assert t.commits[..|s.commits|] == s.commits;
    forall j | 0 <= j < |t.callers|
      ensures CallerSound(c, t, t.callers[j].pc)
    {
      CallerStaysSound(c, s, t, s.callers[j].pc);
    }
    forall v | v in t.pending
      ensures v.Data? && v.writer == Worker && ValueSound(c, t, v)
    {
      if v in s.pending {
        ValueStaysSound(c, s, t, v);
      } else {
        assert v == PushedValue(s, view);
        forall j | 0 <= j < |v.parts|
          ensures PartSound(t, v.parts[j], j, Worker)
        {
          assert view[j] in view;
        }
      }
    }
    if t.entry.Some? {
      ValueStaysSound(c, s, t, t.entry.value.value);
    }
  }

  lemma {:induction false} RunsStaySound(c: Config, s0: System, run: Run)
    requires c.Valid() && Cold(c, s0) && Exec(c, s0, run).Some?
    ensures Sound(c, Exec(c, s0, run).value)
  {
    if run == [] {
      ColdIsSound(c, s0);
    } else {
      var before, e := run[..|run| - 1], run[|run| - 1];
      RunsStaySound(c, s0, before);
      var s := Exec(c, s0, before).value;
      match e {
        case Step(i, fate) => StepSound(c, s, i, fate);
        case CommitView(view, writesThrough) => CommitSound(c, s, view, writesThrough);
        case _ => EnvironmentSound(c, s, e);
      }
    }
  }

  /** Bounded staleness of every value handed to any caller, cached or computed, in every run. */
  lemma StalenessBound(c: Config, s0: System, run: Run, i: nat, o: Outcome)
    requires c.Valid() && Cold(c, s0) && Exec(c, s0, run).Some?
    requires i < |Exec(c, s0, run).value.callers| && Exec(c, s0, run).value.callers[i].pc == Finished(o)
    requires o.Returned? && o.value.Data?
    ensures var s := Exec(c, s0, run).value;
      && |o.value.parts| == c.selects
      && forall j :: 0 <= j < c.selects ==>
           CommittedDuring(s, j, o.value.parts[j].field, o.at - c.Ttl(o.value.writer) - c.maxWrite, o.at)
  {
    RunsStaySound(c, s0, run);
    var s := Exec(c, s0, run).value;
    assert CallerSound(c, s, s.callers[i].pc);
    forall j | 0 <= j < c.selects
      ensures CommittedDuring(s, j, o.value.parts[j].field, o.at - c.Ttl(o.value.writer) - c.maxWrite, o.at)
    {
      var p := o.value.parts[j];
      assert PartSound(s, p, j, o.value.writer);
      assert p in o.value.parts;
      assert CurrentAt(s, p.version, p.readAt);
    }
  }

  /** A reported age never overstates, and understates by less than TTL + write delay + 1 s. */
  lemma ReportedAgeError(c: Config, s0: System, run: Run, i: nat, o: Outcome, j: nat)
    requires c.Valid() && Cold(c, s0) && Exec(c, s0, run).Some?
    requires i < |Exec(c, s0, run).value.callers| && Exec(c, s0, run).value.callers[i].pc == Finished(o)
    requires o.Returned? && o.value.Data? && j < |o.value.parts|
    ensures var p := o.value.parts[j];
      0 <= (o.at - p.field.refreshedAt) - 1000 * p.ageSeconds
        < c.Ttl(o.value.writer) + c.AgeDelay(o.value.writer) + 1000
  {
    RunsStaySound(c, s0, run);
    var s := Exec(c, s0, run).value;
    assert CallerSound(c, s, s.callers[i].pc);
    var p := o.value.parts[j];
    assert PartSound(s, p, j, o.value.writer);
    assert p in o.value.parts;
  }

  /** A coin's detail key: 60 s from a reader, 310 s from the worker, whatever the races. */
  lemma DetailStaleness(c: Config, s0: System, run: Run, i: nat, o: Outcome)
    requires c.lockTimeout == 10 && c.ttl == 60_000 && c.pushTtl == 310_000 && c.selects == 1
    requires Cold(c, s0) && Exec(c, s0, run).Some?
    requires i < |Exec(c, s0, run).value.callers| && Exec(c, s0, run).value.callers[i].pc == Finished(o)
    requires o.Returned? && o.value.Data?
    ensures |o.value.parts| == 1
    ensures CommittedDuring(Exec(c, s0, run).value, 0, o.value.parts[0].field,
      o.at - (if o.value.writer == Reader then 60_000 else 310_000) - c.maxWrite, o.at)
  {
    StalenessBound(c, s0, run, i, o);
  }

  /** A list page: its total and its rows come from two SELECTs, each within 60 s plus the read-to-store gap. */
  lemma ListStaleness(c: Config, s0: System, run: Run, i: nat, o: Outcome)
    requires c.lockTimeout == 10 && c.ttl == 60_000 && c.selects == 2
    requires Cold(c, s0) && Exec(c, s0, run).Some?
    requires i < |Exec(c, s0, run).value.callers| && Exec(c, s0, run).value.callers[i].pc == Finished(o)
    requires o.Returned? && o.value.Data? && o.value.writer == Reader
    ensures |o.value.parts| == 2
    ensures CommittedDuring(Exec(c, s0, run).value, 0, o.value.parts[0].field, o.at - 60_000 - c.maxWrite, o.at)
    ensures CommittedDuring(Exec(c, s0, run).value, 1, o.value.parts[1].field, o.at - 60_000 - c.maxWrite, o.at)
  {
    StalenessBound(c, s0, run, i, o);
  }

  /** A history: one SELECT, within 300 s plus the read-to-store gap. */
  lemma HistoryStaleness(c: Config, s0: System, run: Run, i: nat, o: Outcome)
    requires c.lockTimeout == 10 && c.ttl == 300_000 && c.selects == 1
    requires Cold(c, s0) && Exec(c, s0, run).Some?
    requires i < |Exec(c, s0, run).value.callers| && Exec(c, s0, run).value.callers[i].pc == Finished(o)
    requires o.Returned? && o.value.Data? && o.value.writer == Reader
    ensures |o.value.parts| == 1
    ensures CommittedDuring(Exec(c, s0, run).value, 0, o.value.parts[0].field, o.at - 300_000 - c.maxWrite, o.at)
  {
    StalenessBound(c, s0, run, i, o);
  }

  /**
   The age error of what the deployed worker stores: with 2 pages, 3 tries and the
   pieces of a run bounded, a worker entry, which says 0 s, is less than
   323 s + 6C + 2d + p old.
   */
  lemma WorkerAgeError(
      c: Config, s0: System, run: Run, i: nat, o: Outcome, j: nat, attempt: nat, letter: nat, purge: nat)
    requires c.Valid() && c.pushTtl == 310_000
    requires c.maxRun == RefreshLog.WorstRun(RefreshLog.Limits(2, 3, attempt, letter, purge))
    requires Cold(c, s0) && Exec(c, s0, run).Some?
    requires i < |Exec(c, s0, run).value.callers| && Exec(c, s0, run).value.callers[i].pc == Finished(o)
    requires o.Returned? && o.value.Data? && o.value.writer == Worker && j < |o.value.parts|
    ensures o.value.parts[j].ageSeconds == 0
    ensures 0 <= o.at - o.value.parts[j].field.refreshedAt < 323_000 + 6 * attempt + 2 * letter + purge
  {
    assert RefreshLog.Pow2(3) == 2 * RefreshLog.Pow2(2) == 8;
    ReportedAgeError(c, s0, run, i, o, j);
    RunsStaySound(c, s0, run);
    var s := Exec(c, s0, run).value;
    assert CallerSound(c, s, s.callers[i].pc);
    assert PartSound(s, o.value.parts[j], j, o.value.writer);
  }
}
