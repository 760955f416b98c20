/**
 cache_get_or_set as a protocol. One cache key, its lock key, the committed
 database view behind the key, and any number of callers; every await of the
 coroutine is one atomic step, and steps of different callers, database commits,
 the worker's write-through, invalidation and the passage of time interleave in
 any order. Instants are milliseconds.
 */
module CacheProtocol {
  import opened Wrappers

  /** What one SELECT reads of the database for this key, with the refresh instant of that row. */
  datatype Field = Field(content: string, refreshedAt: nat)

  type View = seq<Field>

  /** One SELECT's share of a value: what was read, from which commit, when, and the age it reports. */
  datatype Part = Part(field: Field, version: nat, readAt: nat, ageSeconds: nat)

  datatype Writer = Reader | Worker

  /** JSON null reads back as a miss; anything else is the parts the factory read. */
  datatype Value = Null | Data(parts: seq<Part>, writer: Writer)

  datatype Outcome = Returned(value: Value, at: nat) | Raised

  /**
   The constants of one cache key. maxHold, maxWrite and maxRun are not in the
   code: they bound, for the theorems that need it, how long a lock holder, a
   read or commit that will be written to Redis, and a worker run may take.
   */
  datatype Config = Config(
    lockTimeout: nat,
    ttl: nat,
    pushTtl: nat,
    selects: nat,
    maxHold: nat,
    maxWrite: nat,
    maxRun: nat)
  {
    /** px=lock_timeout * 1000 */
    function LockMs(): nat {
      lockTimeout * 1000
    }

    /** range(lock_timeout * 10) */
    function Polls(): nat {
      lockTimeout * 10
    }

    function Ttl(w: Writer): nat {
      if w == Reader then ttl else pushTtl
    }

    /** How far before the SETEX the age stored in a value may have been computed. */
    function AgeDelay(w: Writer): nat {
      if w == Reader then maxWrite else maxRun
    }

    /** Redis refuses PX 0, and a factory makes at least one SELECT. */
    predicate Valid() {
      lockTimeout >= 1 && selects >= 1
    }
  }

  /** asyncio.sleep(0.1) */
  const POLL_MS: nat := 100

  // ---------------------------------------------------------- one caller

  /** Where a caller is: which await comes next, and its local variables. */
  datatype Pc =
    | Start
    | Locking
    | Recheck(since: nat)
    | Compute(held: Option<nat>, parts: seq<Part>)
    | Store(held: Option<nat>, value: Value)
    | Release(since: nat, outcome: Outcome)
    | Waiting(left: nat, wake: nat)
    | Finished(outcome: Outcome)

  /** What the next await asks of Redis or the database. */
  datatype Command = Get | SetNx | Select(index: nat) | SetEx(value: Value) | Del | SleepThenGet

  /** What a SELECT of the factory came to. */
  datatype Read = Fetched(part: Part) | ReturnsNull | Raises

  /** The answer to a command; only the part the command asks for is looked at. */
  datatype Reply = Reply(now: nat, hit: Option<Value>, granted: bool, read: Read)

  function Request(pc: Pc): Command
    requires !pc.Finished?
  {
    match pc
    case Start => Get
    case Locking => SetNx
    case Recheck(_) => Get
    case Compute(_, parts) => Select(|parts|)
    case Store(_, value) => SetEx(value)
    case Release(_, _) => Del
    case Waiting(_, _) => SleepThenGet
  }

  function AfterFactory(held: Option<nat>, outcome: Outcome): Pc {
    if held.Some? then Release(held.value, outcome) else Finished(outcome)
  }

  /** The coroutine's code between one await and the next. */
  function Resume(c: Config, pc: Pc, r: Reply): Pc
    requires !pc.Finished?
  {
    match pc
    case Start =>
      if r.hit.Some? then Finished(Returned(r.hit.value, r.now)) else Locking
    case Locking =>
      if r.granted then Recheck(r.now)
      else if c.Polls() == 0 then Compute(None, [])
      else Waiting(c.Polls(), r.now + POLL_MS)
    case Recheck(since) =>
      if r.hit.Some? then Release(since, Returned(r.hit.value, r.now)) else Compute(Some(since), [])
    case Compute(held, parts) => (
      match r.read
      case Fetched(part) =>
        var read := parts + [part];
        if |read| < c.selects then Compute(held, read) else Store(held, Data(read, Reader))
      case ReturnsNull => Store(held, Null)
      case Raises => AfterFactory(held, Raised))
    case Store(held, value) => AfterFactory(held, Returned(value, r.now))
    case Release(_, outcome) => Finished(outcome)
    case Waiting(left, _) =>
      if r.hit.Some? then Finished(Returned(r.hit.value, r.now))
      else if left <= 1 then Compute(None, [])
      else Waiting(left - 1, r.now + POLL_MS)
  }

  // ------------------------------------------------------- the whole system

  datatype Entry = Entry(value: Value, expiry: nat)

  datatype Commit = Commit(view: View, at: nat)

  /** A caller with what it has done so far. */
  datatype Caller = Caller(pc: Pc, polls: nat, calls: nat, stores: nat)

  /**
   entry and lock are the two Redis keys; commits the database's past, the last one
   current; pending what the worker has committed and not yet written through;
   runs, produced and pushed record factory runs, their values and the worker's.
   */
  datatype System = System(
    now: nat,
    entry: Option<Entry>,
    lock: Option<nat>,
    callers: seq<Caller>,
    commits: seq<Commit>,
    pending: set<Value>,
    runs: nat,
    produced: seq<Value>,
    pushed: seq<Value>)

  /** How a step of the factory ends; other steps have no say in it. */
  datatype Fate = Fetches | NullResult | Fails

  datatype Event =
    | Tick(ms: nat)
    | Step(who: nat, fate: Fate)
    | CommitView(view: View, writesThrough: bool)
    | WriteThrough(pushedValue: Value)
    | WriteThroughLost(lostValue: Value)
    | Invalidate

  function Initial(n: nat, view: View, now: nat): System {
    System(now, None, None, seq(n, _ => Caller(Start, 0, 0, 0)), [Commit(view, now)], {}, 0, [], [])
  }

  /** cache_get: nothing for an absent or expired entry, nor for a stored null. */
  function Hit(s: System): Option<Value> {
    if s.entry.Some? && s.now < s.entry.value.expiry && s.entry.value.value != Null
    then Some(s.entry.value.value)
    else None
  }

  /** SET NX succeeds when the lock key is absent or past its PX expiry. */
  predicate LockFree(s: System) {
    s.lock.None? || s.lock.value <= s.now
  }

  /** Between acquiring the lock and deleting it. */
  predicate Holds(pc: Pc) {
    pc.Recheck? || pc.Release? || (pc.Compute? && pc.held.Some?) || (pc.Store? && pc.held.Some?)
  }

  function Since(pc: Pc): nat
    requires Holds(pc)
  {
    match pc
    case Recheck(since) => since
    case Release(since, _) => since
    case Compute(held, _) => held.value
    case Store(held, _) => held.value
  }

  /** What a caller has read and not yet written to Redis. */
  function Unwritten(pc: Pc): seq<Part> {
    match pc
    case Compute(_, parts) => parts
    case Store(_, value) => if value.Data? then value.parts else []
    case _ => []
  }

  /** Holders, reads and write-throughs within the bounds of the configuration. */
  ghost predicate Timely(c: Config, s: System) {
    && (forall i :: 0 <= i < |s.callers| && Holds(s.callers[i].pc) ==> s.now <= Since(s.callers[i].pc) + c.maxHold)
    && (forall i, p :: 0 <= i < |s.callers| && p in Unwritten(s.callers[i].pc) ==> s.now <= p.readAt + c.maxWrite)
    && (forall v, p :: v in s.pending && v.Data? && p in v.parts ==>
         s.now <= p.readAt + c.maxWrite && s.now <= p.field.refreshedAt + c.maxRun)
  }

  function Latest(s: System): nat
    requires s.commits != []
  {
    |s.commits| - 1
  }

  /** One SELECT now: the current committed view, its age in whole seconds as _coin_to_dict computes it. */
  function ReadPart(s: System, index: nat): Part
    requires s.commits != [] && index < |s.commits[Latest(s)].view|
  {
    var field := s.commits[Latest(s)].view[index];
    Part(field, Latest(s), s.now, if s.now < field.refreshedAt then 0 else (s.now - field.refreshedAt) / 1000)
  }

  /** The worker's payload for the view it has just committed: its age is stored as 0. */
  function PushedValue(s: System, view: View): Value {
    Data(seq(|view|, i requires 0 <= i < |view| => Part(view[i], |s.commits|, s.now, 0)), Worker)
  }

  function Answer(c: Config, s: System, pc: Pc, fate: Fate): Reply
    requires s.commits != [] && |s.commits[Latest(s)].view| == c.selects
    requires pc.Compute? ==> |pc.parts| < c.selects
  {
    Reply(s.now, Hit(s), LockFree(s),
      if fate == NullResult then ReturnsNull
      else if fate == Fails || !pc.Compute? then Raises
      else Fetched(ReadPart(s, |pc.parts|)))
  }

  /** The caller's own tally of polls, factory calls and stores. */
  function Tally(who: Caller, next: Pc): Caller {
    Caller(next,
      who.polls + (if who.pc.Waiting? then 1 else 0),
      who.calls + (if next.Compute? && !who.pc.Compute? then 1 else 0),
      who.stores + (if who.pc.Store? then 1 else 0))
  }

  /** The effect of a step on the caller and on everything shared. */
  function Act(c: Config, s: System, i: nat, fate: Fate): System
    requires i < |s.callers| && !s.callers[i].pc.Finished?
    requires s.commits != [] && |s.commits[Latest(s)].view| == c.selects
    requires s.callers[i].pc.Compute? ==> |s.callers[i].pc.parts| < c.selects
  {
    var pc := s.callers[i].pc;
    var next := Resume(c, pc, Answer(c, s, pc, fate));
    s.(callers := s.callers[i := Tally(s.callers[i], next)],
       lock := match Request(pc)
         case SetNx => if LockFree(s) then Some(s.now + c.LockMs()) else s.lock
         case Del => None
         case _ => s.lock,
       entry := match Request(pc)
         case SetEx(v) => Some(Entry(v, s.now + c.Ttl(if v.Data? then v.writer else Reader)))
         case _ => s.entry,
       runs := if next.Compute? && !pc.Compute? then s.runs + 1 else s.runs,
       produced := if next.Store? then s.produced + [next.value] else s.produced)
  }

  ghost predicate Enabled(c: Config, s: System, e: Event) {
    match e
    case Tick(ms) => Timely(c, s.(now := s.now + ms))
    case Step(i, fate) =>
      && i < |s.callers|
      && !s.callers[i].pc.Finished?
      && (s.callers[i].pc.Waiting? ==> s.callers[i].pc.wake <= s.now)
      && (fate != Fetches ==> s.callers[i].pc.Compute?)
      && s.commits != [] && |s.commits[Latest(s)].view| == c.selects
      && (s.callers[i].pc.Compute? ==> |s.callers[i].pc.parts| < c.selects)
    case CommitView(view, writesThrough) =>
      && |view| == c.selects
      && (forall f :: f in view ==> f.refreshedAt <= s.now)
      && (writesThrough ==> forall f :: f in view ==> s.now <= f.refreshedAt + c.maxRun)
    case WriteThrough(v) => v in s.pending
    case WriteThroughLost(v) => v in s.pending
    case Invalidate => true
  }

  ghost function Apply(c: Config, s: System, e: Event): System
    requires Enabled(c, s, e)
  {
    match e
    case Tick(ms) => s.(now := s.now + ms)
    case Step(i, fate) => Act(c, s, i, fate)
    case CommitView(view, writesThrough) =>
      s.(commits := s.commits + [Commit(view, s.now)],
         pending := if writesThrough then s.pending + {PushedValue(s, view)} else s.pending)
    case WriteThrough(v) =>
      s.(entry := Some(Entry(v, s.now + c.Ttl(Worker))), pending := s.pending - {v}, pushed := s.pushed + [v])
    case WriteThroughLost(v) => s.(pending := s.pending - {v})
    case Invalidate => s.(entry := None)
  }

  type Run = seq<Event>

  /** The state a run leads to, if every event of it was possible in its turn. */
  ghost function Exec(c: Config, s0: System, run: Run): Option<System> {
    if run == [] then Some(s0)
    else
      var before := Exec(c, s0, run[..|run| - 1]);
      if before.Some? && Enabled(c, before.value, run[|run| - 1])
      then Some(Apply(c, before.value, run[|run| - 1]))
      else None
  }

  /** A cold key: n callers that have not looked yet, and a database whose rows are not from the future. */
  ghost predicate Cold(c: Config, s: System) {
    exists view: View ::
      && |view| == c.selects
      && (forall f :: f in view ==> f.refreshedAt <= s.now)
      && s == Initial(|s.callers|, view, s.now)
  }

  lemma ExecSnoc(c: Config, s0: System, run: Run, e: Event)
    ensures Exec(c, s0, run + [e]) ==
      if Exec(c, s0, run).Some? && Enabled(c, Exec(c, s0, run).value, e)
      then Some(Apply(c, Exec(c, s0, run).value, e))
      else None
  {
    assert (run + [e])[..|run|] == run;
  }

  /** Running one script after another. */
  lemma {:induction false} ExecThen(c: Config, s0: System, first: Run, second: Run)
    requires Exec(c, s0, first).Some?
    ensures Exec(c, s0, first + second) == Exec(c, Exec(c, s0, first).value, second)
  {
    if second == [] {
      assert first + second == first;
    } else {
      var before, e := second[..|second| - 1], second[|second| - 1];
      ExecThen(c, s0, first, before);
      assert first + second == (first + before) + [e];
      ExecSnoc(c, s0, first + before, e);
    }
  }

  lemma ExecChain(c: Config, s0: System, first: Run, s1: System, second: Run, s2: System, third: Run, s3: System)
    requires Exec(c, s0, first) == Some(s1) && Exec(c, s1, second) == Some(s2) && Exec(c, s2, third) == Some(s3)
    ensures Exec(c, s0, first + second + third) == Some(s3)
  {
    ExecThen(c, s0, first, second);
    ExecThen(c, s0, first + second, third);
  }

  lemma ExecOne(c: Config, s: System, e: Event)
    requires Enabled(c, s, e)
    ensures Exec(c, s, [e]) == Some(Apply(c, s, e))
  {
    ExecSnoc(c, s, [], e);
    assert [] + [e] == [e];
  }
}
