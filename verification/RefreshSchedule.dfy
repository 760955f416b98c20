/**
 Several worker processes, each started whenever its scheduler likes, sharing the
 Redis lock of the refresh. A run takes as long as its log says; nobody renews the
 lock. Two runs are never inside the refresh together exactly when the worst run
 ends before the lock's PX expiry. Instants are milliseconds.
 */
module RefreshSchedule {
  import opened Wrappers
  import opened RefreshLog
  import RefreshWorker
  import RefreshPromises
  import CryptoTable
  import Database
  import WriteThrough

  /** A run to come: what its pages will do and how long its purge will take. */
  datatype Job = Job(pages: seq<PageLog>, purge: nat)

  ghost predicate Admissible(l: Limits, j: Job) {
    && |j.pages| <= l.pages
    && j.purge <= l.purge
    && forall n :: 0 <= n < |j.pages| ==> WithinLimits(l, j.pages[n])
  }

  function Duration(j: Job): nat {
    PagesTime(j.pages) + j.purge
  }

  /** What the worker's code does under the lock is a job of this schedule, and takes exactly that job's time. */
  lemma RunIsAJob(
      l: Limits, world: RefreshWorker.World, before: Database.Tables, start: int,
      r: RefreshWorker.Report, after: Database.Tables, end: int) returns (job: Job)
    requires l.maxRetries >= 1 && RefreshWorker.Bounded(l, world)
    requires RefreshWorker.RunDone(l.pages, l.maxRetries, world, before, start, r, after, end)
    ensures Admissible(l, job) && job.pages == r.pages && end == start + Duration(job)
  {
    RefreshWorker.RunFitsLimits(l, world, before, start, r, after, end);
    job := Job(r.pages, RefreshWorker.PurgeTime(r, world.purge));
  }

  /** Idle, or inside the refresh since one instant until another. */
  datatype Process = Idle | Inside(since: nat, until: nat)

  datatype System = System(now: nat, lock: Option<nat>, workers: seq<Process>)

  datatype Event =
    | Tick(ms: nat)
    | Trigger(worker: nat, job: Job)
    | Finish(worker: nat, unlocks: bool)

  function Initial(n: nat): System {
    System(0, None, seq(n, _ => Idle))
  }

  predicate LockFree(s: System) {
    s.lock.None? || s.lock.value <= s.now
  }

  /** A run neither overstays its log nor is left waiting once done; a trigger is always possible for an idle worker. */
  ghost predicate Enabled(l: Limits, s: System, e: Event) {
    match e
    case Tick(ms) => forall w :: 0 <= w < |s.workers| && s.workers[w].Inside? ==> s.now + ms <= s.workers[w].until
    case Trigger(w, job) => w < |s.workers| && s.workers[w].Idle? && Admissible(l, job)
    case Finish(w, _) => w < |s.workers| && s.workers[w].Inside? && s.workers[w].until == s.now
  }

  /**
   A trigger that finds the lock held skips the run; the end of a run deletes the lock,
   whoever owns it, if Redis takes the DEL.
   */
  ghost function Apply(l: Limits, lockTtl: nat, s: System, e: Event): System
    requires Enabled(l, s, e)
  {
    match e
    case Tick(ms) => s.(now := s.now + ms)
    case Trigger(w, job) =>
      if LockFree(s)
      then s.(lock := Some(s.now + lockTtl), workers := s.workers[w := Inside(s.now, s.now + Duration(job))])
      else s
    case Finish(w, unlocks) => s.(lock := if unlocks then None else s.lock, workers := s.workers[w := Idle])
  }

  ghost function Exec(l: Limits, lockTtl: nat, n: nat, run: seq<Event>): Option<System> {
    if run == [] then Some(Initial(n))
    else
      var before := Exec(l, lockTtl, n, run[..|run| - 1]);
      if before.Some? && Enabled(l, before.value, run[|run| - 1])
      then Some(Apply(l, lockTtl, before.value, run[|run| - 1]))
      else None
  }

  /** The lock as the schedule sees it is the lock key in Redis. */
  predicate SameLock(s: System, store: WriteThrough.Store, key: string) {
    && (s.lock.Some? <==> key in store)
    && (s.lock.Some? ==> s.lock.value == store[key].expiry)
  }

  /**
   With nobody else about, what RunRefresh leaves of the lock key is a trigger, the job's time and
   a finish; and it is turned away exactly when a trigger would be.
   */
  lemma RunIsOnSchedule(
      l: Limits, lockTtl: nat, s: System, w: nat, job: Job, unlocks: bool,
      before: WriteThrough.Store, key: RefreshWorker.LockKey, after: WriteThrough.Store)
    requires SameLock(s, before, key) && w < |s.workers| && Admissible(l, job)
    requires forall v :: 0 <= v < |s.workers| ==> s.workers[v].Idle?
    ensures Apply(l, lockTtl, s, Trigger(w, job)) == s <==> key in before && s.now < before[key].expiry
    ensures RefreshWorker.OnlyLockLeft(unlocks, before, key, s.now + lockTtl, after) ==>
      var t := Apply(l, lockTtl, s, Trigger(w, job));
      t != s ==>
        && Enabled(l, t, Tick(Duration(job)))
        && var done := Apply(l, lockTtl, t, Tick(Duration(job)));
          && Enabled(l, done, Finish(w, unlocks))
          && var end := Apply(l, lockTtl, done, Finish(w, unlocks));
            SameLock(end, after, key) && end.workers == s.workers && end.now == s.now + Duration(job)
  {
    var t := Apply(l, lockTtl, s, Trigger(w, job));
    if LockFree(s) {
      assert t.workers[w].Inside?;
      assert t.workers[w := Idle] == s.workers;
    }
  }

  predicate NoOverlap(s: System) {
    forall v, w :: 0 <= v < w < |s.workers| ==> !(s.workers[v].Inside? && s.workers[w].Inside?)
  }

  /** The one run inside owns the lock and will be gone before it expires. */
  ghost predicate Protected(l: Limits, lockTtl: nat, s: System) {
    && NoOverlap(s)
    && forall w :: 0 <= w < |s.workers| && s.workers[w].Inside? ==>
         && s.lock == Some(s.workers[w].since + lockTtl)
         && s.now <= s.workers[w].until <= s.workers[w].since + WorstRun(l)
  }

  lemma StepProtected(l: Limits, lockTtl: nat, s: System, e: Event)
    requires l.maxRetries >= 1 && WorstRun(l) < lockTtl
    requires Protected(l, lockTtl, s) && Enabled(l, s, e)
    ensures Protected(l, lockTtl, Apply(l, lockTtl, s, e))
  {
    if e.Trigger? {
      RunTimeBounded(l, e.job.pages, e.job.purge);
    }
  }

  lemma {:induction false} RunsProtected(l: Limits, lockTtl: nat, n: nat, run: seq<Event>)
    requires l.maxRetries >= 1 && WorstRun(l) < lockTtl && Exec(l, lockTtl, n, run).Some?
    ensures Protected(l, lockTtl, Exec(l, lockTtl, n, run).value)
  {
    if run != [] {
      RunsProtected(l, lockTtl, n, run[..|run| - 1]);
      StepProtected(l, lockTtl, Exec(l, lockTtl, n, run[..|run| - 1]).value, run[|run| - 1]);
    }
  }

  /** A lock that nobody deletes keeps workers out for no longer than its lifetime. */
  lemma {:induction false} LocksRunOut(l: Limits, lockTtl: nat, n: nat, run: seq<Event>)
    requires Exec(l, lockTtl, n, run).Some?
    ensures var s := Exec(l, lockTtl, n, run).value;
      s.lock.Some? ==> s.lock.value <= s.now + lockTtl
  {
    if run != [] {
      LocksRunOut(l, lockTtl, n, run[..|run| - 1]);
    }
  }

  lemma ExecSnoc(l: Limits, lockTtl: nat, n: nat, run: seq<Event>, e: Event)
    requires Exec(l, lockTtl, n, run).Some? && Enabled(l, Exec(l, lockTtl, n, run).value, e)
    ensures Exec(l, lockTtl, n, run + [e]) == Some(Apply(l, lockTtl, Exec(l, lockTtl, n, run).value, e))
  {
    assert (run + [e])[..|run|] == run;
  }

  function SlowJob(l: Limits): Job {
    Job(SlowRun(l), l.purge)
  }

  lemma SlowJobIsWorst(l: Limits)
    requires l.maxRetries >= 1
    ensures Admissible(l, SlowJob(l)) && Duration(SlowJob(l)) == WorstRun(l)
  {
    WorstRunReached(l);
  }

  /** The slow job is what the worker's code does in the slow world, from any tables and at any instant. */
  lemma SlowJobIsARun(l: Limits, before: Database.Tables, start: int)
    returns (r: RefreshWorker.Report, after: Database.Tables, end: int)
    requires l.maxRetries >= 1 && CryptoTable.Injective(before.coins)
    ensures RefreshWorker.RunDone(
      l.pages, l.maxRetries, RefreshPromises.SlowWorld(l), before, start, r, after, end)
    ensures r.pages == SlowJob(l).pages && end == start + Duration(SlowJob(l))
  {
    SlowJobIsWorst(l);
    r, after, end := RefreshPromises.WorstRunIsARun(l, before, start);
  }

  /** A worst run outlives its lock, and the next trigger walks in. */
  lemma SlowRunsOverlap(l: Limits, lockTtl: nat, n: nat) returns (run: seq<Event>)
    requires l.maxRetries >= 1 && n >= 2 && WorstRun(l) >= lockTtl
    ensures Exec(l, lockTtl, n, run).Some? && !NoOverlap(Exec(l, lockTtl, n, run).value)
  {
    SlowJobIsWorst(l);
    var first, pause, second := Trigger(0, SlowJob(l)), Tick(lockTtl), Trigger(1, SlowJob(l));
    ExecSnoc(l, lockTtl, n, [], first);
    ExecSnoc(l, lockTtl, n, [] + [first], pause);
    ExecSnoc(l, lockTtl, n, [] + [first] + [pause], second);
    run := [] + [first] + [pause] + [second];
    var s := Exec(l, lockTtl, n, run).value;
    assert s.workers[0].Inside? && s.workers[1].Inside?;
  }

  /**
   No schedule overlaps two runs if and only if the worst run,
   P(MC + 2^M - 2 + d) + p, is shorter than the lock's lifetime.
   */
  lemma NoOverlapIffWorstRunFits(l: Limits, lockTtl: nat, n: nat)
    requires l.maxRetries >= 1 && n >= 2
    ensures (forall run: seq<Event> :: Exec(l, lockTtl, n, run).Some? ==> NoOverlap(Exec(l, lockTtl, n, run).value))
        <==> l.pages * (l.maxRetries * l.attempt + (Pow2(l.maxRetries) - 2) * 1000 + l.letter) + l.purge < lockTtl
  {
    if WorstRun(l) < lockTtl {
      forall run: seq<Event> | Exec(l, lockTtl, n, run).Some?
        ensures NoOverlap(Exec(l, lockTtl, n, run).value)
      {
        RunsProtected(l, lockTtl, n, run);
      }
    } else {
      var run := SlowRunsOverlap(l, lockTtl, n);
      assert Exec(l, lockTtl, n, run).Some?;
    }
  }

  /** The deployed constants: 2 pages, 3 tries, a 270 s lock. Runs cannot overlap iff 6C + 2d + p < 258 s. */
  lemma DeployedLockSuffices(attempt: nat, letter: nat, purge: nat, n: nat)
    requires n >= 2
    ensures (forall run: seq<Event> ::
        Exec(Limits(2, 3, attempt, letter, purge), 270_000, n, run).Some? ==>
          NoOverlap(Exec(Limits(2, 3, attempt, letter, purge), 270_000, n, run).value))
      <==> 6 * attempt + 2 * letter + purge < 258_000
  {
    var l := Limits(2, 3, attempt, letter, purge);
    assert Pow2(3) == 2 * Pow2(2) == 8;
    NoOverlapIffWorstRunFits(l, 270_000, n);
  }
}
