/**
 POST /cryptocurrencies/refresh with an Idempotency-Key. Requests that carry the
 same key first look for a marker, then leave a "pending" one and start the work;
 the work overwrites the marker when it ends. POST /watchlist looks and stores under
 the very same Redis key. Instants are milliseconds.
 */
module Idempotency {
  import opened Wrappers
  import opened CacheKeys
  import Redis

  /** What the key holds: a refresh marker, or the response that the other endpoint stored. */
  datatype Status = Pending | Completed | Failed | Foreign

  /** `if not key`: a missing or empty header switches the whole mechanism off. */
  predicate Keyed(header: Option<string>) {
    header.Some? && header.value != ""
  }

  /** Whether a request with this header finds a marker. */
  predicate Seen(store: Redis.Keyspace<Status>, header: Option<string>, now: int) {
    Keyed(header) && Redis.Lookup(store, Render(CacheKeys.Idempotency(header.value)), now).Some?
  }

  function Stored(
      store: Redis.Keyspace<Status>, header: Option<string>, status: Status, now: int, ttl: int): Redis.Keyspace<Status>
  {
    if !Keyed(header) then store
    else store[Render(CacheKeys.Idempotency(header.value)) := Redis.Entry(status, now + ttl)]
  }

  /** check_idempotency and store_idempotency on the Redis of the API process. */
  class Handler {
    const redis: Redis.Server<Status>

    constructor (redis: Redis.Server<Status>)
      ensures this.redis == redis
    {
      this.redis := redis;
    }

    method Check(header: Option<string>, now: int) returns (seen: bool)
      ensures seen <==> Seen(redis.store, header, now)
      ensures header.None? || header == Some("") ==> !seen
      ensures header.Some? && header.value != "" ==>
        var key := Render(CacheKeys.Idempotency(header.value));
        seen <==> key in redis.store && now < redis.store[key].expiry
    {
      if header.None? || header.value == "" {
        return false;
      }
      return Redis.Lookup(redis.store, Render(CacheKeys.Idempotency(header.value)), now).Some?;
    }

    method Store(header: Option<string>, status: Status, now: int, ttl: int)
      modifies redis`store
      ensures redis.store == Stored(old(redis.store), header, status, now, ttl)
      ensures header.None? || header == Some("") ==> redis.store == old(redis.store)
      ensures header.Some? && header.value != "" ==>
        var key := Render(CacheKeys.Idempotency(header.value));
        redis.store == old(redis.store)[key := Redis.Entry(status, now + ttl)]
    {
      if header.None? || header.value == "" {
        return;
      }
      redis.SetEx(Render(CacheKeys.Idempotency(header.value)), ttl, status, now);
    }

    /** The handler when nothing comes between its check and its marker: true means that work was started. */
    method Refresh(header: Option<string>, now: int, ttl: int) returns (started: bool)
      requires ttl > 0
      modifies redis`store
      ensures started <==> !Seen(old(redis.store), header, now)
      ensures redis.store == if started then Stored(old(redis.store), header, Pending, now, ttl) else old(redis.store)
      ensures header.None? || header == Some("") ==> started && redis.store == old(redis.store)
      ensures header.Some? && header.value != "" ==>
        var key := Render(CacheKeys.Idempotency(header.value));
        && (started <==> key !in old(redis.store) || now >= old(redis.store)[key].expiry)
        && (started ==> redis.store == old(redis.store)[key := Redis.Entry(Pending, now + ttl)])
      ensures Keyed(header) ==> Seen(redis.store, header, now)
      ensures forall other: string :: Keyed(header) && other != header.value ==>
        Redis.Lookup(redis.store, Render(CacheKeys.Idempotency(other)), now)
          == Redis.Lookup(old(redis.store), Render(CacheKeys.Idempotency(other)), now)
    {
      var seen := Check(header, now);
      if seen {
        return false;
      }
      Store(header, Pending, now, ttl);
      forall other: string | Keyed(header) && other != header.value
        ensures Render(CacheKeys.Idempotency(other)) != Render(CacheKeys.Idempotency(header.value))
      {
        if Render(CacheKeys.Idempotency(other)) == Render(CacheKeys.Idempotency(header.value)) {
          RenderInjective(CacheKeys.Idempotency(other), CacheKeys.Idempotency(header.value));
        }
      }
      return true;
    }
  }

  // -------------------------------------------------- one key, many requests

  datatype Marker = Marker(status: Status, expiry: int)

  /**
   Whether there is a key, the markers' TTL, and the TTL of the other endpoint's responses if
   it gets the same header.
   */
  datatype Use = Use(keyed: bool, ttl: nat, others: Option<nat>) {
    /** The other endpoint's responses last no shorter than the markers. */
    predicate OthersLast() {
      others.Some? ==> others.value >= ttl
    }
  }

  /** Where a request is: not looked, past its check, turned away, its work running, its work over. */
  datatype Request = Arrived | Passed | TurnedAway | Running | Over(ok: bool)

  /** `foreign` counts the other endpoint's requests between their check and their store. */
  datatype System = System(now: nat, marker: Option<Marker>, requests: seq<Request>, starts: seq<nat>, foreign: nat)

  datatype Event =
    | Tick(ms: nat)
    | Look(who: nat)
    | Mark(who: nat)
    | End(who: nat, ok: bool)
    | Peek
    | Respond

  function Initial(n: nat): System {
    System(0, None, seq(n, _ => Arrived), [], 0)
  }

  predicate Live(s: System) {
    s.marker.Some? && s.now < s.marker.value.expiry
  }

  predicate Enabled(u: Use, s: System, e: Event) {
    match e
    case Tick(_) => true
    case Look(r) => r < |s.requests| && s.requests[r].Arrived?
    case Mark(r) => r < |s.requests| && s.requests[r].Passed?
    case End(r, _) => r < |s.requests| && s.requests[r].Running?
    case Peek => u.others.Some?
    case Respond => u.others.Some? && s.foreign > 0
  }

  /** What an event stores under the key, and for how long. */
  function Storing(u: Use, s: System, e: Event): Option<(Status, nat)>
    requires Enabled(u, s, e)
  {
    match e
    case Mark(_) => Some((Pending, u.ttl))
    case End(_, ok) => Some((if ok then Completed else Failed, u.ttl))
    case Respond => Some((Foreign, u.others.value))
    case _ => None
  }

  function Apply(u: Use, s: System, e: Event): System
    requires Enabled(u, s, e)
  {
    var stored := Storing(u, s, e);
    var t := if u.keyed && stored.Some?
      then s.(marker := Some(Marker(stored.value.0, s.now + stored.value.1))) else s;
    match e
    case Tick(ms) => t.(now := s.now + ms)
    case Look(r) => t.(requests := s.requests[r := if u.keyed && Live(s) then TurnedAway else Passed])
    case Mark(r) => t.(requests := s.requests[r := Running], starts := s.starts + [s.now])
    case End(r, ok) => t.(requests := s.requests[r := Over(ok)])
    case Peek => if u.keyed && Live(s) then t else t.(foreign := s.foreign + 1)
    case Respond => t.(foreign := s.foreign - 1)
  }

  function Exec(u: Use, n: nat, run: seq<Event>): Option<System> {
    if run == [] then Some(Initial(n))
    else
      var before := Exec(u, n, run[..|run| - 1]);
      if before.Some? && Enabled(u, before.value, run[|run| - 1])
      then Some(Apply(u, before.value, run[|run| - 1]))
      else None
  }

  /**
   What an event stores under a key turns requests away for exactly its lifetime, and says what
   the event was: the end of the work renews a marker, whatever the outcome.
   */
  lemma StoredTurnsAway(u: Use, s: System, e: Event, ms: nat, r: nat)
    requires Enabled(u, s, e) && (e.Mark? || e.End? || e.Respond?)
    requires r < |s.requests| && Apply(u, s, e).requests[r].Arrived?
    ensures var stored := Apply(u, s, e);
      var later := Apply(u, stored, Tick(ms));
      && Apply(u, later, Look(r)).requests[r]
        == (if u.keyed && ms < (if e.Respond? then u.others.value else u.ttl) then TurnedAway else Passed)
      && (u.keyed ==>
        stored.marker.Some? && stored.marker.value.status ==
          if e.Mark? then Pending else if e.Respond? then Foreign else if e.ok then Completed else Failed)
  {
  }

  /** The requests of the other endpoint that looked, and those that stored. */
  function Peeks(run: seq<Event>): nat {
    if run == [] then 0 else Peeks(run[..|run| - 1]) + if run[|run| - 1].Peek? then 1 else 0
  }

  function Responses(run: seq<Event>): nat {
    if run == [] then 0 else Responses(run[..|run| - 1]) + if run[|run| - 1].Respond? then 1 else 0
  }

  /**
   The other endpoint never stores without having looked first, once for each look, and a look that
   finds something under the key is answered from there and stores nothing.
   */
  lemma {:induction false} ResponsesFollowLooks(u: Use, n: nat, run: seq<Event>)
    requires Exec(u, n, run).Some?
    ensures Responses(run) + Exec(u, n, run).value.foreign <= Peeks(run)
    ensures var s := Exec(u, n, run).value;
      u.others.Some? ==> Apply(u, s, Peek).foreign == s.foreign + if u.keyed && Live(s) then 0 else 1
  {
    if run != [] {
      ResponsesFollowLooks(u, n, run[..|run| - 1]);
    }
  }

  // ------------------------------------------- the Redis behind the machine

  /** What an event does to the API's Redis: a storing event calls Handler.Store. */
  function RedisStep(
      store: Redis.Keyspace<Status>, header: Option<string>, u: Use, s: System, e: Event): Redis.Keyspace<Status>
    requires Enabled(u, s, e)
  {
    var stored := Storing(u, s, e);
    if stored.None? then store else Stored(store, header, stored.value.0, s.now, stored.value.1)
  }

  function RedisAfter(header: Option<string>, u: Use, n: nat, run: seq<Event>): Redis.Keyspace<Status>
    requires Exec(u, n, run).Some?
  {
    if run == [] then map[]
    else
      var front, e := run[..|run| - 1], run[|run| - 1];
      RedisStep(RedisAfter(header, u, n, front), header, u, Exec(u, n, front).value, e)
  }

  /** The key holds the machine's marker. */
  predicate Mirrors(store: Redis.Keyspace<Status>, header: Option<string>, s: System) {
    if Keyed(header) then
      var key := Render(CacheKeys.Idempotency(header.value));
      s.marker == if key in store then Some(Marker(store[key].value, store[key].expiry)) else None
    else s.marker.None?
  }

  lemma StepMirrors(store: Redis.Keyspace<Status>, header: Option<string>, u: Use, s: System, e: Event)
    requires u.keyed == Keyed(header) && Enabled(u, s, e) && Mirrors(store, header, s)
    ensures Mirrors(RedisStep(store, header, u, s, e), header, Apply(u, s, e))
  {
  }

  /**
   After every run the key holds the machine's marker, so that Handler.Check answers exactly
   what Look and Peek go by.
   */
  lemma {:induction false} CheckSeesMarker(header: Option<string>, u: Use, n: nat, run: seq<Event>)
    requires u.keyed == Keyed(header) && Exec(u, n, run).Some?
    ensures Mirrors(RedisAfter(header, u, n, run), header, Exec(u, n, run).value)
    ensures var s := Exec(u, n, run).value;
      Seen(RedisAfter(header, u, n, run), header, s.now) <==> u.keyed && Live(s)
  {
    if run != [] {
      var front := run[..|run| - 1];
      CheckSeesMarker(header, u, n, front);
      StepMirrors(RedisAfter(header, u, n, front), header, u, Exec(u, n, front).value, run[|run| - 1]);
    }
  }

  // --------------------------------------------------------------- spacing

  predicate NonePassed(s: System) {
    forall r :: 0 <= r < |s.requests| ==> !s.requests[r].Passed?
  }

  /** No refresh looks between another refresh's check and its marker. */
  ghost predicate Undisturbed(u: Use, n: nat, run: seq<Event>) {
    && Exec(u, n, run).Some?
    && (run != [] ==>
      && Undisturbed(u, n, run[..|run| - 1])
      && (run[|run| - 1].Look? ==> NonePassed(Exec(u, n, run[..|run| - 1]).value)))
  }

  /** The refreshes between their check and their marker. */
  function Passing(s: System): set<nat> {
    set r: nat | r < |s.requests| && s.requests[r].Passed?
  }

  /** At no point of the run are more than k refreshes between check and marker. */
  ghost predicate Overlapping(u: Use, n: nat, run: seq<Event>, k: nat) {
    && Exec(u, n, run).Some?
    && |Passing(Exec(u, n, run).value)| <= k
    && (run != [] ==> Overlapping(u, n, run[..|run| - 1], k))
  }

  /** Consecutive starts are at least that far apart. */
  predicate Spaced(starts: seq<nat>, ttl: nat) {
    forall i :: 0 < i < |starts| ==> starts[i - 1] + ttl <= starts[i]
  }

  predicate Guarding(ttl: nat, s: System) {
    && Spaced(s.starts, ttl)
    && (forall q, r :: 0 <= q < r < |s.requests| ==> !(s.requests[q].Passed? && s.requests[r].Passed?))
    && (s.starts != [] ==>
      var last := s.starts[|s.starts| - 1];
      && last <= s.now
      && s.marker.Some? && last + ttl <= s.marker.value.expiry
      && (!NonePassed(s) ==> last + ttl <= s.now))
  }

  lemma StepGuards(u: Use, s: System, e: Event)
    requires u.keyed && u.OthersLast()
    requires Guarding(u.ttl, s) && Enabled(u, s, e) && (e.Look? ==> NonePassed(s))
    ensures Guarding(u.ttl, Apply(u, s, e))
  {
    var t := Apply(u, s, e);
    if !NonePassed(t) {
      var r :| 0 <= r < |t.requests| && t.requests[r].Passed?;
      assert e.Look? || s.requests[r].Passed?;
    }
    if e.Mark? {
      assert s.requests[e.who].Passed?;
      assert NonePassed(t);
    }
  }

  lemma {:induction false} UndisturbedRunsGuard(u: Use, n: nat, run: seq<Event>)
    requires u.keyed && u.OthersLast() && Undisturbed(u, n, run)
    ensures Guarding(u.ttl, Exec(u, n, run).value)
  {
    if run != [] {
      UndisturbedRunsGuard(u, n, run[..|run| - 1]);
      StepGuards(u, Exec(u, n, run[..|run| - 1]).value, run[|run| - 1]);
    }
  }

  lemma Subset(a: set<nat>, b: set<nat>)
    requires a <= b
    ensures |a| <= |b|
  {
    assert |b| == |a| + |b - a| by {
      assert b == a + (b - a);
    }
  }

  lemma TwoPassing(s: System, q: nat, r: nat)
    requires q in Passing(s) && r in Passing(s)
    ensures q == r || |Passing(s)| >= 2
  {
    if q != r {
      Subset({q, r}, Passing(s));
    }
  }

  lemma NobodyPassing(s: System)
    requires |Passing(s)| == 0
    ensures NonePassed(s)
  {
    assert Passing(s) == {};
    forall r: nat | r < |s.requests|
      ensures !s.requests[r].Passed?
    {
      assert r !in Passing(s);
    }
  }

  lemma StepGuardsAlone(u: Use, s: System, e: Event)
    requires u.keyed && u.OthersLast()
    requires Guarding(u.ttl, s) && Enabled(u, s, e) && |Passing(Apply(u, s, e))| <= 1
    ensures Guarding(u.ttl, Apply(u, s, e))
  {
    var t := Apply(u, s, e);
    if e.Look? && !NonePassed(s) {
      var r :| 0 <= r < |s.requests| && s.requests[r].Passed?;
      if !Live(s) {
        TwoPassing(t, r, e.who);
      }
      assert forall q :: 0 <= q < |t.requests| && t.requests[q].Passed? ==> s.requests[q].Passed?;
    } else {
      StepGuards(u, s, e);
    }
  }

  lemma {:induction false} OneAtATimeGuards(u: Use, n: nat, run: seq<Event>)
    requires u.keyed && u.OthersLast() && Overlapping(u, n, run, 1)
    ensures Guarding(u.ttl, Exec(u, n, run).value)
  {
    if run != [] {
      OneAtATimeGuards(u, n, run[..|run| - 1]);
      StepGuardsAlone(u, Exec(u, n, run[..|run| - 1]).value, run[|run| - 1]);
    }
  }

  lemma {:induction false} NobodyStarts(u: Use, n: nat, run: seq<Event>)
    requires Overlapping(u, n, run, 0)
    ensures Exec(u, n, run).value.starts == []
  {
    if run != [] {
      NobodyStarts(u, n, run[..|run| - 1]);
      NobodyPassing(Exec(u, n, run[..|run| - 1]).value);
    }
  }

  // ----------------------------------------------------- runs that break it

  /** One event more, after which only `who` may be between check and marker. */
  lemma Snoc(u: Use, n: nat, run: seq<Event>, e: Event, k: nat, who: set<nat>)
    requires Overlapping(u, n, run, k) && Enabled(u, Exec(u, n, run).value, e)
    requires Passing(Apply(u, Exec(u, n, run).value, e)) <= who && |who| <= k
    ensures Overlapping(u, n, run + [e], k) && Exec(u, n, run + [e]) == Some(Apply(u, Exec(u, n, run).value, e))
    ensures Undisturbed(u, n, run) && (e.Look? ==> NonePassed(Exec(u, n, run).value)) ==> Undisturbed(u, n, run + [e])
  {
    assert (run + [e])[..|run|] == run;
    Subset(Passing(Apply(u, Exec(u, n, run).value, e)), who);
  }

  lemma {:induction false} OverlapMore(u: Use, n: nat, run: seq<Event>, k: nat, j: nat)
    requires Overlapping(u, n, run, k) && k <= j
    ensures Overlapping(u, n, run, j)
  {
    if run != [] {
      OverlapMore(u, n, run[..|run| - 1], k, j);
    }
  }

  lemma NotSpaced(starts: seq<nat>, ttl: nat)
    requires |starts| == 2 && starts[0] + ttl > starts[1]
    ensures !Spaced(starts, ttl)
  {
    assert !(starts[1 - 1] + ttl <= starts[1]);
  }

  /** With no key: two requests one right after the other. */
  lemma UnkeyedStartsTwice(u: Use, n: nat) returns (run: seq<Event>)
    requires !u.keyed && n >= 2 && u.ttl >= 1
    ensures Undisturbed(u, n, run) && Overlapping(u, n, run, 1) && !Spaced(Exec(u, n, run).value.starts, u.ttl)
  {
    run := [];
    Snoc(u, n, run, Look(0), 1, {0});
    run := run + [Look(0)];
    Snoc(u, n, run, Mark(0), 1, {});
    run := run + [Mark(0)];
    Snoc(u, n, run, Look(1), 1, {1});
    run := run + [Look(1)];
    Snoc(u, n, run, Mark(1), 1, {});
    run := run + [Mark(1)];
    NotSpaced(Exec(u, n, run).value.starts, u.ttl);
  }

  /** The other endpoint, having looked before anybody, replaces the marker by something shorter-lived. */
  lemma ShortResponseStartsTwice(u: Use, n: nat) returns (run: seq<Event>)
    requires u.keyed && !u.OthersLast() && n >= 2
    ensures Undisturbed(u, n, run) && Overlapping(u, n, run, 1) && !Spaced(Exec(u, n, run).value.starts, u.ttl)
  {
    var first := MarkOverwritten(u, n);
    var wait := Tick(u.others.value);
    Snoc(u, n, first, wait, 1, {});
    run := first + [wait];
    Snoc(u, n, run, Look(1), 1, {1});
    run := run + [Look(1)];
    Snoc(u, n, run, Mark(1), 1, {});
    run := run + [Mark(1)];
    NotSpaced(Exec(u, n, run).value.starts, u.ttl);
  }

  lemma MarkOverwritten(u: Use, n: nat) returns (run: seq<Event>)
    requires u.keyed && u.others.Some? && n >= 2
    ensures Undisturbed(u, n, run) && Overlapping(u, n, run, 1)
    ensures var s := Exec(u, n, run).value;
      && s.now == 0 && s.starts == [0] && s.marker == Some(Marker(Foreign, u.others.value))
      && |s.requests| == n && s.requests[1].Arrived? && NonePassed(s)
  {
    run := [];
    Snoc(u, n, run, Peek, 1, {});
    run := run + [Peek];
    Snoc(u, n, run, Look(0), 1, {0});
    run := run + [Look(0)];
    Snoc(u, n, run, Mark(0), 1, {});
    run := run + [Mark(0)];
    Snoc(u, n, run, Respond, 1, {});
    run := run + [Respond];
  }

  lemma BothLook(u: Use, n: nat) returns (run: seq<Event>)
    requires n >= 2
    ensures Overlapping(u, n, run, 2)
    ensures Exec(u, n, run).value == Initial(n).(requests := Initial(n).requests[0 := Passed][1 := Passed])
  {
    run := [];
    Snoc(u, n, run, Look(0), 2, {0});
    run := run + [Look(0)];
    Snoc(u, n, run, Look(1), 2, {0, 1});
    run := run + [Look(1)];
  }

  /** Two refreshes that both look first both start. */
  lemma InterleavedChecksStartTwice(u: Use, n: nat) returns (run: seq<Event>)
    requires n >= 2 && u.ttl >= 1
    ensures Overlapping(u, n, run, 2) && !Spaced(Exec(u, n, run).value.starts, u.ttl)
  {
    run := BothLook(u, n);
    Snoc(u, n, run, Mark(0), 2, {1});
    run := run + [Mark(0)];
    Snoc(u, n, run, Mark(1), 2, {});
    run := run + [Mark(1)];
    NotSpaced(Exec(u, n, run).value.starts, u.ttl);
  }

  /**
   For requests that do not look between another's check and marker, starts are a TTL
   apart, however long the work runs and however it ends, exactly when there is a key
   and nothing shorter-lived is stored under it by the other endpoint.
   */
  lemma SpacingIffKeyed(u: Use, n: nat)
    requires n >= 2 && u.ttl >= 1
    ensures (forall run: seq<Event> :: Undisturbed(u, n, run) ==> Spaced(Exec(u, n, run).value.starts, u.ttl))
      <==> u.keyed && u.OthersLast()
  {
    if u.keyed && u.OthersLast() {
      forall run: seq<Event> | Undisturbed(u, n, run)
        ensures Spaced(Exec(u, n, run).value.starts, u.ttl)
      {
        UndisturbedRunsGuard(u, n, run);
      }
    } else {
      var run;
      if u.keyed {
        run := ShortResponseStartsTwice(u, n);
      } else {
        run := UnkeyedStartsTwice(u, n);
      }
      assert Undisturbed(u, n, run);
    }
  }

  /**
   Starts are a TTL apart in every run in which at most k refreshes stand between check
   and marker at a time, if and only if that is at most one, there is a key, and nothing
   shorter-lived is stored under it (or no refresh ever gets past its check).
   */
  lemma SpacingIffChecksDoNotOverlap(u: Use, n: nat, k: nat)
    requires n >= 2 && u.ttl >= 1
    ensures (forall run: seq<Event> :: Overlapping(u, n, run, k) ==> Spaced(Exec(u, n, run).value.starts, u.ttl))
      <==> k == 0 || (k == 1 && u.keyed && u.OthersLast())
  {
    if k == 0 {
      forall run: seq<Event> | Overlapping(u, n, run, k)
        ensures Spaced(Exec(u, n, run).value.starts, u.ttl)
      {
        NobodyStarts(u, n, run);
      }
    } else if k == 1 && u.keyed && u.OthersLast() {
      forall run: seq<Event> | Overlapping(u, n, run, k)
        ensures Spaced(Exec(u, n, run).value.starts, u.ttl)
      {
        OneAtATimeGuards(u, n, run);
      }
    } else {
      var run;
      if k >= 2 {
        run := InterleavedChecksStartTwice(u, n);
        OverlapMore(u, n, run, 2, k);
      } else if u.keyed {
        run := ShortResponseStartsTwice(u, n);
      } else {
        run := UnkeyedStartsTwice(u, n);
      }
      assert Overlapping(u, n, run, k);
    }
  }

  /** As deployed: markers last 30 s, the watchlist's responses 24 h. At most one start in any 30 s for a key. */
  lemma RefreshSpacing(others: Option<nat>, n: nat, run: seq<Event>, i: nat)
    requires others.None? || others == Some(86_400_000)
    requires Overlapping(Use(true, 30_000, others), n, run, 1)
    requires 0 < i < |Exec(Use(true, 30_000, others), n, run).value.starts|
    ensures var starts := Exec(Use(true, 30_000, others), n, run).value.starts;
      starts[i - 1] + 30_000 <= starts[i]
  {
    OneAtATimeGuards(Use(true, 30_000, others), n, run);
  }

  // ------------------------------------------------- refused without a start

  predicate Refused(s: System) {
    exists r :: 0 <= r < |s.requests| && s.requests[r].TurnedAway?
  }

  /** A refresh is refused only after one has been started. */
  predicate RefusedForReason(s: System) {
    Refused(s) ==> s.starts != []
  }

  lemma {:induction false} AloneRefusesForReason(u: Use, n: nat, run: seq<Event>)
    requires !(u.keyed && u.others.Some? && u.others.value > 0) && Exec(u, n, run).Some?
    ensures RefusedForReason(Exec(u, n, run).value)
    ensures var s := Exec(u, n, run).value; u.keyed && Live(s) ==> s.starts != []
    ensures var s := Exec(u, n, run).value;
      (exists r :: 0 <= r < |s.requests| && (s.requests[r].Running? || s.requests[r].Over?)) ==> s.starts != []
  {
    if run != [] {
      var before, e := run[..|run| - 1], run[|run| - 1];
      AloneRefusesForReason(u, n, before);
      var s := Exec(u, n, before).value;
      var t := Apply(u, s, e);
      if r :| 0 <= r < |t.requests| && t.requests[r].TurnedAway? {
        assert e == Look(r) || s.requests[r].TurnedAway?;
      }
    }
  }

  /** The other endpoint takes the header first. */
  lemma RefusedWithoutStart(u: Use, n: nat) returns (run: seq<Event>)
    requires u.keyed && u.others.Some? && u.others.value > 0 && n >= 1
    ensures Undisturbed(u, n, run) && Overlapping(u, n, run, 0)
    ensures !RefusedForReason(Exec(u, n, run).value)
  {
    run := [];
    Snoc(u, n, run, Peek, 0, {});
    run := run + [Peek];
    Snoc(u, n, run, Respond, 0, {});
    run := run + [Respond];
    Snoc(u, n, run, Look(0), 0, {});
    run := run + [Look(0)];
    assert Exec(u, n, run).value.requests[0].TurnedAway?;
  }

  /**
   No refresh is ever refused without one having started, if and only if the other endpoint
   does not store under the key.
   */
  lemma RefusedForReasonIff(u: Use, n: nat)
    requires n >= 1
    ensures (forall run: seq<Event> :: Exec(u, n, run).Some? ==> RefusedForReason(Exec(u, n, run).value))
      <==> !(u.keyed && u.others.Some? && u.others.value > 0)
  {
    if u.keyed && u.others.Some? && u.others.value > 0 {
      var run := RefusedWithoutStart(u, n);
      assert Exec(u, n, run).Some?;
    } else {
      forall run: seq<Event> | Exec(u, n, run).Some?
        ensures RefusedForReason(Exec(u, n, run).value)
      {
        AloneRefusesForReason(u, n, run);
      }
    }
  }

  // ---------------------------------------------------- what the marker says

  predicate SomeRequest(s: System, what: Request) {
    exists r :: 0 <= r < |s.requests| && s.requests[r] == what
  }

  /** The state of a request that a marker speaks of. */
  function Meant(status: Status): Request
    requires !status.Foreign?
  {
    match status case Pending => Running case Completed => Over(true) case Failed => Over(false)
  }

  predicate Truthful(s: System) {
    s.marker.Some? && !s.marker.value.status.Foreign? ==> SomeRequest(s, Meant(s.marker.value.status))
  }

  /**
   In every run, interleaved or not: "pending" means work under way, "completed" and "failed"
   an outcome that really occurred.
   */
  lemma {:induction false} MarkerIsTruthful(u: Use, n: nat, run: seq<Event>)
    requires Exec(u, n, run).Some?
    ensures Truthful(Exec(u, n, run).value)
    ensures var m := Exec(u, n, run).value.marker;
      (m.Some? ==> u.keyed) && (m.Some? && m.value.status.Foreign? ==> u.others.Some?)
  {
    if run != [] {
      var before, e := run[..|run| - 1], run[|run| - 1];
      MarkerIsTruthful(u, n, before);
      var s := Exec(u, n, before).value;
      var t := Apply(u, s, e);
      if t.marker == s.marker && s.marker.Some? && !s.marker.value.status.Foreign? {
        var r :| 0 <= r < |s.requests| && s.requests[r] == Meant(s.marker.value.status);
        assert t.requests[r] == s.requests[r];
      } else if t.marker.Some? && !t.marker.value.status.Foreign? {
        assert t.requests[e.who] == if e.Mark? then Running else Over(e.ok);
      }
    }
  }
}
