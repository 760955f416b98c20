/**
 The in-process circuit breaker. The class keeps the source's three fields; a
 ghost history of what happened at the breaker says what those fields mean.
 Entering and leaving lock separately, so calls overlap and the history
 interleaves them freely. Instants are ticks of time.monotonic().
 */
module CircuitBreaker {
  import opened Wrappers

  datatype State = Closed | Open | HalfOpen

  /** One visit to the lock: an attempt to enter, or the end of an admitted call. */
  datatype Event =
    | Enter(at: int, admitted: bool)
    | Success
    | Ignored
    | Failure(at: int)

  type Trace = seq<Event>

  /** Threshold and cooldown of a breaker. */
  datatype Policy = Policy(failureThreshold: int, recoveryTimeout: int) {
    /** A non-positive threshold behaves like one: the first failure already reaches it. */
    function Threshold(): (f: int)
      ensures f >= 1
    {
      if failureThreshold < 1 then 1 else failureThreshold
    }
  }

  function Front(h: Trace): Trace
    requires h != []
  {
    h[..|h| - 1]
  }

  function Last(h: Trace): Event
    requires h != []
  {
    h[|h| - 1]
  }

  /** Counted failures since the last recorded success. */
  function FailureRun(h: Trace): nat {
    if h == [] then 0
    else match Last(h)
      case Success => 0
      case Failure(_) => FailureRun(Front(h)) + 1
      case _ => FailureRun(Front(h))
  }

  /** When the latest counted failure happened; 0 before any. */
  function LatestFailure(h: Trace): int {
    if h == [] then 0
    else match Last(h)
      case Failure(at) => at
      case _ => LatestFailure(Front(h))
  }

  /** Event j admitted a call once the cooldown since the latest failure was over. */
  ghost predicate AdmitsProbe(p: Policy, h: Trace, j: nat)
    requires j < |h|
  {
    h[j].Enter? && h[j].admitted && h[j].at - LatestFailure(h[..j]) >= p.recoveryTimeout
  }

  /** Some call was admitted after the cooldown and no call has been counted since. */
  ghost predicate Probing(p: Policy, h: Trace) {
    exists j: nat :: j < |h| && AdmitsProbe(p, h, j) &&
      forall i :: j < i < |h| ==> !h[i].Failure? && !h[i].Success?
  }

  /** What the history alone says the breaker's state is. */
  ghost function StateAfter(p: Policy, h: Trace): State {
    if FailureRun(h) < p.Threshold() then Closed
    else if Probing(p, h) then HalfOpen
    else Open
  }

  /** Whether a call arriving at that instant gets in. */
  ghost predicate Admits(p: Policy, h: Trace, at: int) {
    StateAfter(p, h) != Open || at - LatestFailure(h) >= p.recoveryTimeout
  }

  /** A history the breaker can produce: each attempt was decided by what preceded it. */
  ghost predicate Legal(p: Policy, h: Trace) {
    forall i :: 0 <= i < |h| && h[i].Enter? ==> (h[i].admitted <==> Admits(p, h[..i], h[i].at))
  }

  lemma ProbingSnoc(p: Policy, h: Trace, e: Event)
    ensures Probing(p, h + [e]) <==>
      match e
      case Enter(at, admitted) => Probing(p, h) || (admitted && at - LatestFailure(h) >= p.recoveryTimeout)
      case Ignored => Probing(p, h)
      case _ => false
  {
    var g := h + [e];
    assert g[..|h|] == h;
    assert forall j: nat :: j < |h| ==> g[..j] == h[..j];
    if Probing(p, h) {
      var j: nat :| j < |h| && AdmitsProbe(p, h, j) && forall i :: j < i < |h| ==> !h[i].Failure? && !h[i].Success?;
      assert AdmitsProbe(p, g, j);
    }
    if Probing(p, g) {
      var j: nat :| j < |g| && AdmitsProbe(p, g, j) && forall i :: j < i < |g| ==> !g[i].Failure? && !g[i].Success?;
      if j < |h| {
        assert !g[|h|].Failure? && !g[|h|].Success?;
        assert AdmitsProbe(p, h, j);
        assert forall i :: j < i < |h| ==> h[i] == g[i];
      }
    }
    if e.Enter? && e.admitted && e.at - LatestFailure(h) >= p.recoveryTimeout {
      assert AdmitsProbe(p, g, |h|);
    }
  }

  /** How one more event moves the declared state. */
  lemma StateSnoc(p: Policy, h: Trace, e: Event)
    ensures FailureRun(h + [e])
      == match e case Success => 0 case Failure(_) => FailureRun(h) + 1 case _ => FailureRun(h)
    ensures LatestFailure(h + [e]) == match e case Failure(at) => at case _ => LatestFailure(h)
    ensures StateAfter(p, h + [e]) == match e
      case Success => Closed
      case Failure(_) => if FailureRun(h) + 1 >= p.Threshold() then Open else Closed
      case Ignored => StateAfter(p, h)
      case Enter(at, admitted) =>
        if StateAfter(p, h) == Open && admitted && at - LatestFailure(h) >= p.recoveryTimeout then HalfOpen
        else StateAfter(p, h)
  {
    assert Front(h + [e]) == h && Last(h + [e]) == e;
    ProbingSnoc(p, h, e);
  }

  /** The breaker is closed exactly while fewer failures than the constructor's threshold have been counted in a row. */
  lemma ClosedBelowThreshold(p: Policy, h: Trace)
    requires p.failureThreshold >= 1
    ensures StateAfter(p, h) == Closed <==> FailureRun(h) < p.failureThreshold
  {
  }

  lemma LegalSnoc(p: Policy, h: Trace, e: Event)
    ensures Legal(p, h + [e]) <==> Legal(p, h) && (e.Enter? ==> (e.admitted <==> Admits(p, h, e.at)))
  {
    var g := h + [e];
    assert g[..|h|] == h;
    assert forall i :: 0 <= i < |h| ==> g[i] == h[i] && g[..i] == h[..i];
    if Legal(p, g) {
      assert g[|h|] == e;
      forall i | 0 <= i < |h| && h[i].Enter?
        ensures h[i].admitted <==> Admits(p, h[..i], h[i].at)
      {
        assert g[i].Enter?;
      }
    }
  }

  /** An exception as the set of its classes: its own and every ancestor. */
  type Exception = set<string>

  class Breaker {
    const policy: Policy
    const ignoredExceptions: set<string>
    var state: State
    var failureCount: int
    var lastFailureTime: int
    ghost var history: Trace

    /** The fields are exactly what the history says. */
    ghost predicate Valid()
      reads this
    {
      && Legal(policy, history)
      && failureCount == FailureRun(history)
      && lastFailureTime == LatestFailure(history)
      && state == StateAfter(policy, history)
    }

    constructor (failureThreshold: int, recoveryTimeout: int, ignored: set<string>)
      ensures Valid() && history == [] && state == Closed && failureCount == 0
      ensures policy == Policy(failureThreshold, recoveryTimeout) && ignoredExceptions == ignored
    {
      policy := Policy(failureThreshold, recoveryTimeout);
      ignoredExceptions := ignored;
      state, failureCount, lastFailureTime := Closed, 0, 0;
      history := [];
    }

    method RecordSuccess()
      requires Valid()
      modifies this
      ensures Valid() && history == old(history) + [Success]
      ensures state == Closed && failureCount == 0 && lastFailureTime == old(lastFailureTime)
    {
      StateSnoc(policy, history, Success);
      LegalSnoc(policy, history, Success);
      failureCount := 0;
      state := Closed;
      history := history + [Success];
    }

    method RecordFailure(now: int)
      requires Valid()
      modifies this
      ensures Valid() && history == old(history) + [Failure(now)]
      ensures failureCount == old(failureCount) + 1 && lastFailureTime == now
      ensures state == Open <==> failureCount >= policy.failureThreshold || old(state) == Open
      ensures state != Open ==> state == old(state)
    {
      StateSnoc(policy, history, Failure(now));
      LegalSnoc(policy, history, Failure(now));
      failureCount := failureCount + 1;
      lastFailureTime := now;
      if failureCount >= policy.failureThreshold {
        state := Open;
      }
      history := history + [Failure(now)];
      assert failureCount >= 1;
    }

    predicate ShouldAttemptReset(now: int)
      reads this
    {
      state == Open && now - lastFailureTime >= policy.recoveryTimeout
    }

    /** __aenter__: true lets the call through, false stands for CircuitOpenError. */
    method Enter(now: int) returns (admitted: bool)
      requires Valid()
      modifies this
      ensures Valid() && history == old(history) + [Event.Enter(now, admitted)]
      ensures admitted <==> old(Admits(policy, history, now))
      ensures admitted <==> old(state) != Open || now - old(lastFailureTime) >= policy.recoveryTimeout
      ensures state == if old(state) == Open && admitted then HalfOpen else old(state)
      ensures failureCount == old(failureCount) && lastFailureTime == old(lastFailureTime)
    {
      if ShouldAttemptReset(now) {
        state := HalfOpen;
      }
      admitted := state != Open;
      StateSnoc(policy, history, Event.Enter(now, admitted));
      LegalSnoc(policy, history, Event.Enter(now, admitted));
      history := history + [Event.Enter(now, admitted)];
    }

    /** __aexit__: None is a clean exit; an ignored class anywhere in the ancestry is no signal. */
    method Exit(exception: Option<Exception>, now: int)
      requires Valid()
      modifies this
      ensures Valid()
      ensures history == old(history) + [
          if exception.None? then Success
          else if exception.value * ignoredExceptions != {} then Ignored
          else Failure(now)]
      ensures exception.None? ==> state == Closed && failureCount == 0 && lastFailureTime == old(lastFailureTime)
      ensures exception.Some? && exception.value * ignoredExceptions != {} ==>
        state == old(state) && failureCount == old(failureCount) && lastFailureTime == old(lastFailureTime)
      ensures exception.Some? && exception.value * ignoredExceptions == {} ==>
        && failureCount == old(failureCount) + 1 && lastFailureTime == now
        && (state == Open <==> failureCount >= policy.failureThreshold || old(state) == Open)
    {
      if exception.None? {
        RecordSuccess();
      } else if exception.value * ignoredExceptions != {} {
        StateSnoc(policy, history, Ignored);
        LegalSnoc(policy, history, Ignored);
        history := history + [Ignored];
      } else {
        RecordFailure(now);
      }
    }
  }
}
