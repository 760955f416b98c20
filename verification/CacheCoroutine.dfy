/**
 The text of cache_get_or_set, statement by statement, checked against the
 positions and transitions of CacheProtocol: whatever Redis and the factory
 answer, the code asks for exactly what the protocol asks for next, ends exactly
 where the protocol ends, and asks a bounded number of times. What it sends and
 returns is also stated in terms of the answers alone, without the protocol.
 */
module CacheCoroutine {
  import opened Wrappers
  import opened CacheProtocol

  type Replies = nat -> Reply

  /** The first n SELECTs of a factory. */
  function Selects(n: nat): (s: seq<Command>)
    ensures |s| == n && forall k :: 0 <= k < n ==> s[k] == Select(k)
  {
    seq(n, k requires 0 <= k < n => Select(k))
  }

  /** n polls. */
  function PollsSent(n: nat): (s: seq<Command>)
    ensures |s| == n && forall k :: 0 <= k < n ==> s[k] == SleepThenGet
  {
    seq(n, _ => SleepThenGet)
  }

  /** The answer at `from` holds a value, and that is what is returned, with nothing else awaited. */
  predicate HitAt(replies: Replies, from: nat, until: nat, outcome: Outcome) {
    var r := replies(from);
    r.hit.Some? && until == from + 1 && outcome == Returned(r.hit.value, r.now)
  }

  /** The k-th answer from `from` on is a row. */
  predicate FetchedAt(replies: Replies, from: nat, k: nat) {
    replies(from + k).read.Fetched?
  }

  /** The factory's n answers from `from` on: all but the last are rows, and the last decides what was made. */
  predicate Made(c: Config, replies: Replies, from: nat, n: nat, made: Option<Value>) {
    && 1 <= n <= c.selects
    && (forall k: nat :: k < n - 1 ==> FetchedAt(replies, from, k))
    && match replies(from + n - 1).read
       case Raises => made == None
       case ReturnsNull => made == Some(Null)
       case Fetched(_) => n == c.selects && made.Some? && Holds(replies, from, n, made.value)
  }

  /** The value is the n rows read from `from` on. */
  predicate Holds(replies: Replies, from: nat, n: nat, v: Value) {
    && v.Data? && v.writer == Reader && |v.parts| == n
    && forall k: nat :: k < n ==> replies(from + k).read == Fetched(v.parts[k])
  }

  /**
   The factory was run on the answers from `from` on. If it raised, so does the caller,
   having stored nothing; otherwise what it made is stored and returned.
   */
  ghost predicate Computed(
      c: Config, replies: Replies, from: nat, until: nat, sent: seq<Command>, outcome: Outcome)
  {
    exists n: nat, made: Option<Value> :: ComputedBy(c, replies, from, n, made, until, sent, outcome)
  }

  predicate ComputedBy(
      c: Config, replies: Replies, from: nat, n: nat, made: Option<Value>, until: nat, sent: seq<Command>,
      outcome: Outcome)
  {
    && Made(c, replies, from, n, made)
    && match made
       case None =>
         until == from + n && sent == Selects(n) && outcome == Raised
       case Some(value) =>
         && until == from + n + 1 && sent == Selects(n) + [SetEx(value)]
         && outcome == Returned(value, replies(from + n).now)
  }

  /** With the lock: a second look, and the factory only if there is still nothing. */
  ghost predicate UnderLock(
      c: Config, replies: Replies, from: nat, until: nat, sent: seq<Command>, outcome: Outcome)
  {
    if replies(from).hit.Some? then HitAt(replies, from, until, outcome) && sent == [Get]
    else [Get] <= sent && Computed(c, replies, from + 1, until, sent[1..], outcome)
  }

  /** Nothing is found by the polls from `from` on, up to `until`. */
  predicate Missed(replies: Replies, from: nat, until: nat) {
    forall i: nat :: from <= i < until ==> replies(i).hit.None?
  }

  /** Without the lock: the first of lock_timeout * 10 polls that finds something, or else the factory. */
  ghost predicate Polled(
      c: Config, replies: Replies, from: nat, until: nat, sent: seq<Command>, outcome: Outcome)
  {
    var last := from + c.lockTimeout * 10;
    && (forall j: nat :: from <= j < last && Missed(replies, from, j) && replies(j).hit.Some? ==>
      HitAt(replies, j, until, outcome) && sent == PollsSent(j + 1 - from))
    && (Missed(replies, from, last) ==>
      PollsSent(last - from) <= sent && Computed(c, replies, last, until, sent[last - from..], outcome))
  }

  /** A whole call: look, try to lock, and go one way or the other; a lock taken is deleted at the very end. */
  ghost predicate Answered(
      c: Config, replies: Replies, from: nat, until: nat, sent: seq<Command>, outcome: Outcome)
  {
    if replies(from).hit.Some? then HitAt(replies, from, until, outcome) && sent == [Get]
    else if replies(from + 1).granted then
      && |sent| >= 3 && sent[..2] == [Get, SetNx] && sent[|sent| - 1] == Del && until >= 1
      && UnderLock(c, replies, from + 2, until - 1, sent[2..|sent| - 1], outcome)
    else
      && [Get, SetNx] <= sent && Polled(c, replies, from + 2, until, sent[2..], outcome)
  }

  lemma Suffix<T>(all: seq<T>, before: seq<T>, more: seq<T>)
    requires all == before + more
    ensures before <= all && all[|before|..] == more
  {
  }

  /**
   One call in progress: the answers it will get, what it has sent, and the position the
   protocol says it is at.
   */
  class Call {
    const config: Config
    const replies: Replies
    var awaits: nat
    ghost var sent: seq<Command>
    ghost var pc: Pc

    constructor (config: Config, replies: Replies)
      ensures this.config == config && this.replies == replies && awaits == 0 && sent == [] && pc == Start
    {
      this.config, this.replies, awaits, sent, pc := config, replies, 0, [], Start;
    }

    /** An await is legitimate only if the protocol asks for that very command. */
    method Await(command: Command) returns (r: Reply)
      requires !pc.Finished? && command == Request(pc)
      modifies this
      ensures r == replies(old(awaits)) && awaits == old(awaits) + 1 && sent == old(sent) + [command]
      ensures pc == Resume(config, old(pc), r)
    {
      r := replies(awaits);
      pc := Resume(config, pc, r);
      awaits := awaits + 1;
      sent := sent + [command];
    }

    /** value = await factory(): None stands for an exception. */
    method RunFactory() returns (made: Option<Value>)
      requires config.Valid() && pc.Compute? && pc.parts == []
      modifies this
      ensures made.Some? ==> pc == Store(old(pc.held), made.value)
      ensures made.None? ==> pc == AfterFactory(old(pc.held), Raised)
      ensures awaits >= old(awaits) && Made(config, replies, old(awaits), awaits - old(awaits), made)
      ensures sent == old(sent) + Selects(awaits - old(awaits))
    {
      ghost var from, before := awaits, sent;
      var parts: seq<Part> := [];
      while true
        invariant |parts| < config.selects
        invariant pc == Compute(old(pc.held), parts)
        invariant awaits == from + |parts| && sent == before + Selects(|parts|)
        invariant forall k: nat :: k < |parts| ==> replies(from + k).read == Fetched(parts[k])
        invariant forall k: nat :: k < |parts| ==> FetchedAt(replies, from, k)
        decreases config.selects - |parts|
      {
        var r := Await(Select(|parts|));
        assert Selects(|parts|) + [Select(|parts|)] == Selects(|parts| + 1);
        match r.read {
          case Raises =>
            return None;
          case ReturnsNull =>
            return Some(Null);
          case Fetched(part) =>
            parts := parts + [part];
            if |parts| == config.selects {
              return Some(Data(parts, Reader));
            }
        }
      }
    }

    /** The factory, and the SETEX of what it made. */
    method ComputeAndStore(ghost before: seq<Command>) returns (outcome: Outcome)
      requires config.Valid() && pc.Compute? && pc.parts == [] && before == sent
      modifies this
      ensures pc == AfterFactory(old(pc.held), outcome)
      ensures before <= sent && Computed(config, replies, old(awaits), awaits, sent[|before|..], outcome)
      ensures old(awaits) < awaits <= old(awaits) + config.selects + 1
    {
      ghost var from := awaits;
      var made := RunFactory();
      ghost var n := awaits - from;
      if made.None? {
        Suffix(sent, before, Selects(n));
        outcome := Raised;
      } else {
        var r := Await(SetEx(made.value));
        Suffix(sent, before, Selects(n) + [SetEx(made.value)]);
        outcome := Returned(made.value, r.now);
      }
      assert ComputedBy(config, replies, from, n, made, awaits, sent[|before|..], outcome);
    }

    /** The holder's try block; the caller's finally deletes the lock whatever comes out. */
    method ComputeUnderLock(ghost before: seq<Command>) returns (outcome: Outcome)
      requires config.Valid() && pc.Recheck? && before == sent
      modifies this
      ensures pc == Release(old(pc.since), outcome)
      ensures before <= sent && UnderLock(config, replies, old(awaits), awaits, sent[|before|..], outcome)
      ensures old(awaits) < awaits <= old(awaits) + config.selects + 2
    {
      var r := Await(Get);
      if r.hit.Some? {
        return Returned(r.hit.value, r.now);
      }
      outcome := ComputeAndStore(sent);
      assert sent[|before|..][1..] == sent[|before| + 1..];
    }

    /** What a caller that lost the lock does: it takes the first poll that hits, and computes only if none does. */
    method PollThenCompute(ghost before: seq<Command>) returns (outcome: Outcome)
      requires config.Valid() && pc.Waiting? && pc.left == config.Polls() && before == sent
      modifies this
      ensures pc == Finished(outcome)
      ensures before <= sent && Polled(config, replies, old(awaits), awaits, sent[|before|..], outcome)
      ensures awaits <= old(awaits) + config.lockTimeout * 10 + config.selects + 1
    {
      ghost var from := awaits;
      for attempt := 0 to config.lockTimeout * 10
        invariant awaits == from + attempt && sent == before + PollsSent(attempt)
        invariant Missed(replies, from, awaits)
        invariant attempt < config.Polls() ==> pc.Waiting? && pc.left == config.Polls() - attempt
        invariant attempt == config.Polls() ==> pc == Compute(None, [])
      {
        ghost var at := awaits;
        var r := Await(SleepThenGet);
        assert PollsSent(attempt) + [SleepThenGet] == PollsSent(attempt + 1);
        if r.hit.Some? {
          Suffix(sent, before, PollsSent(attempt + 1));
          FirstHit(config, replies, from, at, sent[|before|..], Returned(r.hit.value, r.now));
          return Returned(r.hit.value, r.now);
        }
      }
      ghost var polled := sent;
      outcome := ComputeAndStore(polled);
      AllMissed(config, replies, from, awaits, sent[|before|..], sent[|polled|..], outcome);
    }

    method CacheGetOrSet(ghost before: seq<Command>) returns (outcome: Outcome)
      requires config.Valid() && pc == Start && before == sent
      modifies this
      ensures pc == Finished(outcome)
      ensures awaits <= old(awaits) + config.lockTimeout * 10 + config.selects + 5
      ensures before <= sent && Answered(config, replies, old(awaits), awaits, sent[|before|..], outcome)
    {
      var r := Await(Get);
      if r.hit.Some? {
        return Returned(r.hit.value, r.now);
      }
      r := Await(SetNx);
      ghost var tried := sent;
      assert tried == before + [Get, SetNx];
      if r.granted {
        outcome := ComputeUnderLock(tried);
        ghost var computed := sent;
        var _ := Await(Del);
        LockAndRelease(before, tried, computed, sent);
      } else {
        outcome := PollThenCompute(tried);
        assert sent[|before|..][2..] == sent[|tried|..];
      }
    }
  }

  lemma FirstHit(c: Config, replies: Replies, from: nat, at: nat, sent: seq<Command>, outcome: Outcome)
    requires from <= at < from + c.lockTimeout * 10 && Missed(replies, from, at) && replies(at).hit.Some?
    requires outcome == Returned(replies(at).hit.value, replies(at).now) && sent == PollsSent(at + 1 - from)
    ensures Polled(c, replies, from, at + 1, sent, outcome)
  {
    forall j: nat | from <= j < from + c.lockTimeout * 10 && Missed(replies, from, j) && replies(j).hit.Some?
      ensures j == at
    {
      assert at < j ==> replies(at).hit.None?;
      assert j < at ==> replies(j).hit.None?;
    }
  }

  lemma AllMissed(
      c: Config, replies: Replies, from: nat, until: nat, sent: seq<Command>, computed: seq<Command>, outcome: Outcome)
    requires Missed(replies, from, from + c.lockTimeout * 10)
    requires sent == PollsSent(c.lockTimeout * 10) + computed
    requires Computed(c, replies, from + c.lockTimeout * 10, until, computed, outcome)
    ensures Polled(c, replies, from, until, sent, outcome)
  {
    assert sent[c.lockTimeout * 10..] == computed;
  }

  lemma LockAndRelease(before: seq<Command>, tried: seq<Command>, computed: seq<Command>, sent: seq<Command>)
    requires tried == before + [Get, SetNx] && tried < computed && sent == computed + [Del]
    ensures before <= sent
    ensures var mine := sent[|before|..];
      && |mine| >= 3 && mine[..2] == [Get, SetNx] && mine[|mine| - 1] == Del
      && mine[2..|mine| - 1] == computed[|tried|..]
  {
  }
}
