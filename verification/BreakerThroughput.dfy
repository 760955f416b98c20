/**
 How much traffic the breaker lets through to a service that is down. In any
 window in which every call that ends is a counted failure, and with at most k
 calls in flight, the admissions number at most threshold - 1 + k for the calls
 of the closed phase and k more for every cooldown that fits in the window; and
 that many can really happen.
 */
module BreakerThroughput {
  import opened CircuitBreaker

  function Admissions(h: Trace): nat {
    if h == [] then 0
    else Admissions(Front(h)) + if Last(h).Enter? && Last(h).admitted then 1 else 0
  }

  /** Calls that have entered and not yet left. */
  function InFlight(h: Trace): int {
    if h == [] then 0
    else InFlight(Front(h)) + match Last(h)
      case Enter(_, admitted) => if admitted then 1 else 0
      case _ => -1
  }

  /** The instant of the latest event after the first n, or the window's start. */
  function Now(h: Trace, n: nat, start: int): int {
    if |h| <= n then start
    else match Last(h)
      case Enter(at, _) => at
      case Failure(at) => at
      case _ => start
  }

  /** After its first n events, h is an outage seen from `start`: no call succeeds, at most k overlap. */
  ghost predicate Outage(h: Trace, n: nat, k: nat, start: int) {
    && n <= |h|
    && 0 <= InFlight(h) <= k
    && (|h| > n ==>
      && (Last(h).Enter? || Last(h).Failure?)
      && Now(Front(h), n, start) <= Now(h, n, start)
      && Outage(Front(h), n, k, start))
  }

  /** Admissions since the first n events, at most, once c cooldowns have begun and ended in the window. */
  function Budget(p: Policy, k: nat, c: nat): int {
    p.Threshold() - 1 + k + k * c
  }

  lemma BudgetStep(p: Policy, k: nat, c: nat)
    ensures Budget(p, k, c + 1) == Budget(p, k, c) + k
    ensures (c + 1) * p.recoveryTimeout == c * p.recoveryTimeout + p.recoveryTimeout
    ensures 0 * p.recoveryTimeout == 0 && k * 0 == 0
  {
  }

  /** What holds between the admissions so far and the cooldowns so far, state by state. */
  ghost predicate WithinBudget(p: Policy, h: Trace, n: nat, k: nat, start: int, c: nat)
    requires n <= |h|
  {
    var w := Admissions(h) - Admissions(h[..n]);
    match StateAfter(p, h)
    case Closed =>
      c == 0 && w <= FailureRun(h) + InFlight(h)
    case HalfOpen =>
      w + k <= Budget(p, k, c) + InFlight(h) && start + c * p.recoveryTimeout <= Now(h, n, start)
    case Open =>
      || (w + k <= Budget(p, k, c) && start + c * p.recoveryTimeout <= Now(h, n, start))
      || (w <= Budget(p, k, c) && start + c * p.recoveryTimeout <= LatestFailure(h) <= Now(h, n, start))
  }

  /** A failure in an outage: the breaker is open afterwards, or still closed. */
  lemma FailureWithinBudget(p: Policy, h: Trace, n: nat, k: nat, start: int, c: nat)
    requires |h| > n && Legal(p, h) && Outage(h, n, k, start) && Last(h).Failure?
    requires WithinBudget(p, Front(h), n, k, start, c)
    ensures WithinBudget(p, h, n, k, start, c)
  {
    var g := Front(h);
    assert h == g + [Last(h)] && h[..n] == g[..n];
    StateSnoc(p, g, Last(h));
    NowGrows(g, n, k, start);
    BudgetStep(p, k, c);
  }

  /** An attempt to enter in an outage: if it ends a cooldown, there is one cooldown more. */
  lemma EntryWithinBudget(p: Policy, h: Trace, n: nat, k: nat, start: int, c: nat) returns (d: nat)
    requires |h| > n && Legal(p, h) && Outage(h, n, k, start) && Last(h).Enter?
    requires WithinBudget(p, Front(h), n, k, start, c)
    ensures WithinBudget(p, h, n, k, start, d)
  {
    var g := Front(h);
    assert h == g + [Last(h)] && h[..n] == g[..n];
    LegalSnoc(p, g, Last(h));
    StateSnoc(p, g, Last(h));
    NowGrows(g, n, k, start);
    BudgetStep(p, k, c);
    d := if StateAfter(p, g) == Open && StateAfter(p, h) == HalfOpen
      && !WithinBudget(p, h, n, k, start, c) then c + 1 else c;
  }

  lemma {:induction false} OutageStaysWithinBudget(p: Policy, h: Trace, n: nat, k: nat, start: int) returns (c: nat)
    requires Legal(p, h) && Outage(h, n, k, start)
    ensures WithinBudget(p, h, n, k, start, c)
  {
    BudgetStep(p, k, 0);
    if |h| == n {
      assert h[..n] == h;
      c := 0;
    } else {
      assert h == Front(h) + [Last(h)];
      LegalSnoc(p, Front(h), Last(h));
      c := OutageStaysWithinBudget(p, Front(h), n, k, start);
      if Last(h).Failure? {
        FailureWithinBudget(p, h, n, k, start, c);
      } else {
        c := EntryWithinBudget(p, h, n, k, start, c);
      }
    }
  }

  lemma Scale(x: int, y: int, factor: int)
    requires x <= y && factor >= 0
    ensures x * factor <= y * factor
  {
  }

  lemma WholeCooldowns(c: nat, cooldown: int, length: int)
    requires cooldown > 0 && c * cooldown <= length
    ensures c <= length / cooldown
  {
    var q := length / cooldown;
    assert length < (q + 1) * cooldown;
    if q + 1 <= c {
      Scale(q + 1, c, cooldown);
    }
  }

  lemma BudgetMonotone(p: Policy, k: nat, c: nat, d: nat)
    requires c <= d
    ensures Budget(p, k, c) <= Budget(p, k, d)
  {
    assert k * c <= k * d;
  }

  /**
   The throughput bound, for any window of length T of any run, the breaker's past
   before the window being arbitrary.
   */
  lemma OutageThroughput(p: Policy, h: Trace, n: nat, k: nat, start: int, length: int)
    requires p.recoveryTimeout > 0
    requires Legal(p, h) && Outage(h, n, k, start)
    requires Now(h, n, start) <= start + length
    ensures length >= 0
    ensures Admissions(h) - Admissions(h[..n]) <= p.Threshold() - 1 + k + k * (length / p.recoveryTimeout)
  {
    var c := OutageStaysWithinBudget(p, h, n, k, start);
    NowGrows(h, n, k, start);
    assert c * p.recoveryTimeout <= length;
    WholeCooldowns(c, p.recoveryTimeout, length);
    BudgetMonotone(p, k, c, length / p.recoveryTimeout);
    BudgetMonotone(p, k, 0, c);
  }

  lemma {:induction false} NowGrows(h: Trace, n: nat, k: nat, start: int)
    requires Outage(h, n, k, start)
    ensures start <= Now(h, n, start)
  {
    if |h| > n {
      NowGrows(Front(h), n, k, start);
    }
  }

  // ------------------------------------------------- the bound is reached

  /** m calls enter at once. */
  function Entries(at: int, m: nat): Trace {
    if m == 0 then [] else Entries(at, m - 1) + [Enter(at, true)]
  }

  /** m calls fail at once. */
  function Failures(at: int, m: nat): Trace {
    if m == 0 then [] else Failures(at, m - 1) + [Failure(at)]
  }

  /** Calls that fail one after the other, as many as leave the breaker closed. */
  function Sequential(m: nat): Trace {
    if m == 0 then [] else Sequential(m - 1) + [Enter(0, true)] + [Failure(0)]
  }

  /** The busiest outage: all but one failure in sequence, then k calls at once, again after each cooldown. */
  function Busiest(p: Policy, k: nat, rounds: nat): Trace {
    if rounds == 0 then Sequential(p.Threshold() - 1) + Entries(0, k) + Failures(0, k)
    else
      var at := rounds * p.recoveryTimeout;
      Busiest(p, k, rounds - 1) + Entries(at, k) + Failures(at, k)
  }

  lemma Snoc(h: Trace, e: Event)
    ensures h + [e] != [] && Front(h + [e]) == h && Last(h + [e]) == e
  {
  }

  /** An outage from the start, up to that instant, with its tally. */
  ghost predicate Tally(p: Policy, k: nat, at: int, h: Trace, calls: int, admissions: int, failures: int) {
    && Legal(p, h) && Outage(h, 0, k, 0) && Now(h, 0, 0) <= at
    && InFlight(h) == calls && Admissions(h) == admissions && FailureRun(h) == failures
  }

  lemma EntryAdmitted(p: Policy, k: nat, at: int, h: Trace, calls: nat, admissions: int, failures: int)
    requires Tally(p, k, at, h, calls, admissions, failures) && calls < k && Admits(p, h, at)
    ensures var g := h + [Enter(at, true)];
      && Tally(p, k, at, g, calls + 1, admissions + 1, failures) && Admits(p, g, at)
      && (failures >= p.Threshold() ==> StateAfter(p, g) == HalfOpen)
  {
    var e := Enter(at, true);
    Snoc(h, e);
    StateSnoc(p, h, e);
    LegalSnoc(p, h, e);
  }

  lemma FailureCounted(p: Policy, k: nat, at: int, h: Trace, calls: int, admissions: int, failures: int)
    requires Tally(p, k, at, h, calls, admissions, failures) && calls > 0
    ensures var g := h + [Failure(at)];
      Tally(p, k, at, g, calls - 1, admissions, failures + 1) && LatestFailure(g) == at
  {
    var e := Failure(at);
    Snoc(h, e);
    StateSnoc(p, h, e);
    LegalSnoc(p, h, e);
  }

  lemma {:induction false} SequentialCalls(p: Policy, k: nat, m: nat)
    requires k >= 1 && m < p.Threshold()
    ensures Tally(p, k, 0, Sequential(m), 0, m, m)
  {
    if m > 0 {
      SequentialCalls(p, k, m - 1);
      EntryAdmitted(p, k, 0, Sequential(m - 1), 0, m - 1, m - 1);
      FailureCounted(p, k, 0, Sequential(m - 1) + [Enter(0, true)], 1, m, m - 1);
    }
  }

  lemma {:induction false} EntriesAdmitted(p: Policy, k: nat, at: int, h: Trace, m: nat, admissions: int, failures: int)
    requires Tally(p, k, at, h, 0, admissions, failures) && m <= k && Admits(p, h, at)
    ensures var g := h + Entries(at, m);
      && Tally(p, k, at, g, m, admissions + m, failures) && Admits(p, g, at)
      && (m > 0 && failures >= p.Threshold() ==> StateAfter(p, g) == HalfOpen)
  {
    if m == 0 {
      assert h + Entries(at, 0) == h;
    } else {
      EntriesAdmitted(p, k, at, h, m - 1, admissions, failures);
      var g := h + Entries(at, m - 1);
      assert h + Entries(at, m) == g + [Enter(at, true)];
      EntryAdmitted(p, k, at, g, m - 1, admissions + m - 1, failures);
    }
  }

  lemma {:induction false} FailuresCounted(
      p: Policy, k: nat, at: int, h: Trace, m: nat, calls: int, admissions: int, failures: int)
    requires Tally(p, k, at, h, calls, admissions, failures) && m <= calls
    ensures var g := h + Failures(at, m);
      Tally(p, k, at, g, calls - m, admissions, failures + m) && (m > 0 ==> LatestFailure(g) == at)
  {
    if m == 0 {
      assert h + Failures(at, 0) == h;
    } else {
      FailuresCounted(p, k, at, h, m - 1, calls, admissions, failures);
      var g := h + Failures(at, m - 1);
      assert h + Failures(at, m) == g + [Failure(at)];
      FailureCounted(p, k, at, g, calls - (m - 1), admissions, failures + m - 1);
    }
  }

  lemma BusiestRound(p: Policy, k: nat, at: int, h: Trace, admissions: int, failures: int)
    requires k >= 1 && Tally(p, k, at, h, 0, admissions, failures) && Admits(p, h, at)
    ensures var g := h + Entries(at, k) + Failures(at, k);
      Tally(p, k, at, g, 0, admissions + k, failures + k) && LatestFailure(g) == at
  {
    EntriesAdmitted(p, k, at, h, k, admissions, failures);
    FailuresCounted(p, k, at, h + Entries(at, k), k, k, admissions + k, failures);
  }

  lemma {:induction false} BusiestOutage(p: Policy, k: nat, rounds: nat)
    requires k >= 1 && p.recoveryTimeout > 0
    ensures var h, at := Busiest(p, k, rounds), rounds * p.recoveryTimeout;
      Tally(p, k, at, h, 0, Budget(p, k, rounds), p.Threshold() - 1 + k + rounds * k) && LatestFailure(h) == at
  {
    BudgetStep(p, k, 0);
    if rounds == 0 {
      SequentialCalls(p, k, p.Threshold() - 1);
      BusiestRound(p, k, 0, Sequential(p.Threshold() - 1), p.Threshold() - 1, p.Threshold() - 1);
    } else {
      var before, failures := rounds - 1, p.Threshold() - 1 + k + (rounds - 1) * k;
      BudgetStep(p, k, before);
      BusiestOutage(p, k, before);
      BusiestRound(p, k, rounds * p.recoveryTimeout, Busiest(p, k, before), Budget(p, k, before), failures);
    }
  }

  /** No smaller bound is true: for every length some outage of that length reaches it. */
  lemma OutageThroughputReached(p: Policy, k: nat, length: nat) returns (h: Trace)
    requires k >= 1 && p.recoveryTimeout > 0
    ensures Legal(p, h) && Outage(h, 0, k, 0) && Now(h, 0, 0) <= length
    ensures Admissions(h) == p.Threshold() - 1 + k + k * (length / p.recoveryTimeout)
  {
    var rounds := length / p.recoveryTimeout;
    BusiestOutage(p, k, rounds);
    h := Busiest(p, k, rounds);
    assert rounds * p.recoveryTimeout <= length;
  }

  /** HALF_OPEN is not limited to one probe: overlapping callers all get in until one of them is counted. */
  lemma ProbesOverlap(p: Policy, k: nat) returns (h: Trace)
    requires k >= 1 && p.recoveryTimeout > 0
    ensures Legal(p, h) && StateAfter(p, h) == HalfOpen && InFlight(h) == k
  {
    BusiestOutage(p, k, 0);
    BudgetStep(p, k, 0);
    var g, at := Busiest(p, k, 0), p.recoveryTimeout;
    EntriesAdmitted(p, k, at, g, k, Budget(p, k, 0), p.Threshold() - 1 + k);
    h := g + Entries(at, k);
  }

  /** With the constructor's own threshold: F - 1 + k + k * floor(T / R), as an upper bound ... */
  lemma ThroughputByThreshold(p: Policy, h: Trace, n: nat, k: nat, start: int, length: int)
    requires p.failureThreshold >= 1 && p.recoveryTimeout > 0
    requires Legal(p, h) && Outage(h, n, k, start)
    requires Now(h, n, start) <= start + length
    ensures length >= 0
    ensures Admissions(h) - Admissions(h[..n]) <= p.failureThreshold - 1 + k + k * (length / p.recoveryTimeout)
  {
    OutageThroughput(p, h, n, k, start, length);
  }

  /** ... and as what some outage reaches. */
  lemma ThroughputByThresholdReached(p: Policy, k: nat, length: nat) returns (h: Trace)
    requires p.failureThreshold >= 1 && p.recoveryTimeout > 0 && k >= 1
    ensures Legal(p, h) && Outage(h, 0, k, 0) && Now(h, 0, 0) <= length
    ensures Admissions(h) == p.failureThreshold - 1 + k + k * (length / p.recoveryTimeout)
  {
    h := OutageThroughputReached(p, k, length);
  }

  /** The CoinGecko breaker: 5 failures, 30 s. Sequential callers get through 5 + floor(T / 30 s) times. */
  lemma CoinGeckoOutage(h: Trace, n: nat, start: int, seconds: nat)
    requires Legal(Policy(5, 30), h) && Outage(h, n, 1, start) && Now(h, n, start) <= start + seconds
    ensures Admissions(h) - Admissions(h[..n]) <= 5 + seconds / 30
  {
    OutageThroughput(Policy(5, 30), h, n, 1, start, seconds);
  }

  /** And in some outage of T seconds they do, every single time. */
  lemma CoinGeckoOutageReached(seconds: nat) returns (h: Trace)
    ensures Legal(Policy(5, 30), h) && Outage(h, 0, 1, 0) && Now(h, 0, 0) <= seconds
    ensures Admissions(h) == 5 + seconds / 30
  {
    h := OutageThroughputReached(Policy(5, 30), 1, seconds);
  }

  /** The Claude breaker: 3 failures, 60 s. */
  lemma ClaudeOutage(h: Trace, n: nat, start: int, seconds: nat)
    requires Legal(Policy(3, 60), h) && Outage(h, n, 1, start) && Now(h, n, start) <= start + seconds
    ensures Admissions(h) - Admissions(h[..n]) <= 3 + seconds / 60
  {
    OutageThroughput(Policy(3, 60), h, n, 1, start, seconds);
  }
}
