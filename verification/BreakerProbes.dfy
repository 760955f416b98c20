/**
 How many probes a half-open breaker lets through. The documentation says one; the
 code checks only for OPEN, so the answer depends on the callers: on how many
 overlap, and on whether a probe can end in an exception that the breaker ignores.
 */
module BreakerProbes {
  import opened CircuitBreaker
  import opened BreakerThroughput

  /** Calls let in since the latest outcome that counted. */
  function Probes(h: Trace): nat {
    if h == [] then 0
    else match Last(h)
      case Enter(_, admitted) => Probes(Front(h)) + if admitted then 1 else 0
      case Ignored => Probes(Front(h))
      case _ => 0
  }

  /** Never more than k calls in flight; calls end in an ignored exception only if they may. */
  ghost predicate Traffic(h: Trace, k: nat, mayIgnore: bool) {
    && 0 <= InFlight(h) <= k
    && (h != [] ==> (Last(h).Ignored? ==> mayIgnore) && Traffic(Front(h), k, mayIgnore))
  }

  /** Unless outcomes may be ignored, every probe since the latest counted outcome is still in flight. */
  lemma {:induction false} ProbesAreInFlight(h: Trace, k: nat)
    requires Traffic(h, k, false)
    ensures Probes(h) <= InFlight(h)
  {
    if h != [] {
      ProbesAreInFlight(Front(h), k);
    }
  }

  lemma {:induction false} NoTrafficNoFailures(h: Trace, mayIgnore: bool)
    requires Traffic(h, 0, mayIgnore)
    ensures FailureRun(h) == 0 && InFlight(h) == 0
  {
    if h != [] {
      NoTrafficNoFailures(Front(h), mayIgnore);
    }
  }

  lemma {:induction false} OutageIsTraffic(h: Trace, k: nat, start: int, mayIgnore: bool)
    requires Outage(h, 0, k, start)
    ensures Traffic(h, k, mayIgnore)
  {
    if h != [] {
      OutageIsTraffic(Front(h), k, start, mayIgnore);
    }
  }

  lemma TrafficSnoc(h: Trace, e: Event, k: nat, mayIgnore: bool)
    requires Traffic(h, k, mayIgnore) && (e.Ignored? ==> mayIgnore)
    requires e.Enter? && e.admitted ==> InFlight(h) < k
    requires !e.Enter? ==> InFlight(h) > 0
    ensures Traffic(h + [e], k, mayIgnore)
  {
    Snoc(h, e);
  }

  /** The cooldown after the failures that opened the breaker at instant 0. */
  function Reopening(p: Policy): int {
    if p.recoveryTimeout < 0 then 0 else p.recoveryTimeout
  }

  /** The breaker has been opened by calls one after the other, and the first probe is in. */
  lemma FirstProbe(p: Policy, k: nat) returns (h: Trace)
    requires k >= 1
    ensures Legal(p, h) && Outage(h, 0, k, 0) && StateAfter(p, h) == HalfOpen
    ensures InFlight(h) == 1 && Probes(h) == 1
  {
    var f := p.Threshold();
    SequentialCalls(p, k, f - 1);
    EntryAdmitted(p, k, 0, Sequential(f - 1), 0, f - 1, f - 1);
    var g := Sequential(f - 1) + [Enter(0, true)];
    FailureCounted(p, k, 0, g, 1, f, f - 1);
    Snoc(g, Failure(0));
    g := g + [Failure(0)];
    EntryAdmitted(p, k, Reopening(p), g, 0, f, f);
    Snoc(g, Enter(Reopening(p), true));
    h := g + [Enter(Reopening(p), true)];
  }

  /** One more caller while the breaker is half-open. */
  lemma AnotherProbe(p: Policy, h: Trace, at: int)
    requires Legal(p, h) && StateAfter(p, h) == HalfOpen
    ensures var g := h + [Enter(at, true)];
      Legal(p, g) && StateAfter(p, g) == HalfOpen && Probes(g) == Probes(h) + 1
  {
    var e := Enter(at, true);
    Snoc(h, e);
    StateSnoc(p, h, e);
    LegalSnoc(p, h, e);
  }

  /** Two probes, either together or, if the first ends in an ignored exception, one after the other. */
  lemma TwoProbes(p: Policy, k: nat, mayIgnore: bool) returns (h: Trace)
    requires k >= 2 || (k == 1 && mayIgnore)
    ensures Legal(p, h) && Traffic(h, k, mayIgnore) && StateAfter(p, h) == HalfOpen && Probes(h) == 2
  {
    h := FirstProbe(p, k);
    OutageIsTraffic(h, k, 0, mayIgnore);
    if k == 1 {
      Snoc(h, Ignored);
      StateSnoc(p, h, Ignored);
      LegalSnoc(p, h, Ignored);
      TrafficSnoc(h, Ignored, k, mayIgnore);
      h := h + [Ignored];
    }
    AnotherProbe(p, h, Reopening(p));
    TrafficSnoc(h, Enter(Reopening(p), true), k, mayIgnore);
    h := h + [Enter(Reopening(p), true)];
  }

  /**
   A half-open breaker has let at most one probe through, in every history, if and
   only if callers come one at a time and no probe can end in an ignored exception
   (or nobody calls at all).
   */
  lemma OneProbeIff(p: Policy, k: nat, mayIgnore: bool)
    ensures (forall h: Trace ::
        Legal(p, h) && Traffic(h, k, mayIgnore) && StateAfter(p, h) == HalfOpen ==> Probes(h) <= 1)
        <==> k == 0 || (k == 1 && !mayIgnore)
  {
    if k == 0 {
      forall h: Trace | Traffic(h, k, mayIgnore)
        ensures StateAfter(p, h) == Closed
      {
        NoTrafficNoFailures(h, mayIgnore);
      }
    } else if k == 1 && !mayIgnore {
      forall h: Trace | Traffic(h, k, mayIgnore)
        ensures Probes(h) <= 1
      {
        ProbesAreInFlight(h, k);
      }
    } else {
      var h := TwoProbes(p, k, mayIgnore);
      assert Probes(h) > 1;
    }
  }
}
