/**
 The part of Redis the repository uses: GET, SETEX, SET NX PX, DEL and SCAN over
 one keyspace whose entries carry an expiry instant. Instants are milliseconds.
 The pattern delete of app/core/cache.py and the worker's copy of it run here.
 */
module Redis {
  import opened Wrappers

  datatype Entry<+V> = Entry(value: V, expiry: int)

  type Keyspace<V> = map<string, Entry<V>>

  /** GET: an entry is served strictly before its expiry instant and never at or after it. */
  function Lookup<V>(store: Keyspace<V>, key: string, now: int): Option<V> {
    if key in store && now < store[key].expiry then Some(store[key].value) else None
  }

  /** The number of keys after which a pattern delete sends its batch. */
  const DELETE_BATCH: nat := 100

  function Flatten(batches: seq<seq<string>>): seq<string> {
    if batches == [] then [] else batches[0] + Flatten(batches[1..])
  }

  /** The DEL commands a pattern delete sends for a scan: full batches, then the remainder. */
  function Batches(keys: seq<string>, size: nat): seq<seq<string>>
    requires size > 0
  {
    if keys == [] then []
    else if |keys| <= size then [keys]
    else [keys[..size]] + Batches(keys[size..], size)
  }

  /** No DEL is empty or oversized; only the last may be short. */
  predicate WellBatched(batches: seq<seq<string>>, size: nat) {
    forall i :: 0 <= i < |batches| ==> 0 < |batches[i]| <= size && (i < |batches| - 1 ==> |batches[i]| == size)
  }

  lemma FullBatchFirst(first: seq<string>, rest: seq<seq<string>>, size: nat)
    requires WellBatched(rest, size) && |first| == size > 0
    ensures WellBatched([first] + rest, size) && Flatten([first] + rest) == first + Flatten(rest)
  {
    var all := [first] + rest;
    assert all[1..] == rest;
    assert forall i :: 0 < i < |all| ==> all[i] == rest[i - 1];
  }

  /** Every scanned key is sent once, in order, in well-sized batches. */
  lemma {:induction false} BatchesCoverScan(keys: seq<string>, size: nat)
    requires size > 0
    ensures Flatten(Batches(keys, size)) == keys && WellBatched(Batches(keys, size), size)
  {
    if |keys| > size {
      var first, left := keys[..size], keys[size..];
      BatchesCoverScan(left, size);
      var rest := Batches(left, size);
      FullBatchFirst(first, rest, size);
      assert first + left == keys;
    } else if keys != [] {
      OneBatch(keys);
    }
  }

  lemma OneBatch(keys: seq<string>)
    ensures Flatten([keys]) == keys
  {
    assert [keys][1..] == [];
  }

  /** Full batches already sent plus a partial one are the only way to batch a scan. */
  lemma {:induction false} BatchesUnique(sent: seq<seq<string>>, last: seq<string>, size: nat)
    requires size > 0 && |last| < size
    requires forall i :: 0 <= i < |sent| ==> |sent[i]| == size
    ensures Batches(Flatten(sent) + last, size) == sent + if last == [] then [] else [last]
  {
    if sent == [] {
      assert Flatten(sent) + last == last;
    } else {
      var first, rest := sent[0], sent[1..];
      var tail := Flatten(rest) + last;
      BatchesUnique(rest, last, size);
      assert Flatten(sent) + last == first + tail;
      BatchesOfFull(first, tail, size);
      assert sent == [first] + rest;
      if rest != [] {
        FlattenedNotEmpty(rest);
      }
    }
  }

  lemma BatchesOfFull(first: seq<string>, tail: seq<string>, size: nat)
    requires |first| == size > 0
    ensures Batches(first + tail, size) == if tail == [] then [first] else [first] + Batches(tail, size)
  {
    assert (first + tail)[..size] == first && (first + tail)[size..] == tail;
    assert tail == [] ==> first + tail == first;
  }

  lemma FlattenedNotEmpty(sent: seq<seq<string>>)
    requires sent != [] && sent[0] != []
    ensures Flatten(sent) != []
  {
    assert |Flatten(sent)| == |sent[0]| + |Flatten(sent[1..])|;
  }

  lemma {:induction false} FlattenSnoc(sent: seq<seq<string>>, b: seq<string>)
    ensures Flatten(sent + [b]) == Flatten(sent) + b
  {
    if sent == [] {
      assert [b][1..] == [];
    } else {
      FlattenSnoc(sent[1..], b);
      assert (sent + [b])[1..] == sent[1..] + [b];
    }
  }

  /** What DEL leaves: the store without the named keys, absent ones being no error. */
  function Without<V>(store: Keyspace<V>, keys: seq<string>): Keyspace<V> {
    map k | k in store && k !in keys :: store[k]
  }

  // ---------------------------------------------- a pattern delete at work

  /** While a pattern delete runs: SCAN yields a key, or another client writes or removes one. */
  datatype ScanEvent<+V> = Yield(key: string) | Put(key: string, entry: Entry<V>) | Gone(key: string)

  type Script<V> = seq<ScanEvent<V>>

  /** The store, the keys collected for the next DEL, and the DELs sent. */
  datatype Sweep<V> = Sweep(store: Keyspace<V>, batch: seq<string>, deletes: seq<seq<string>>)

  /** Adding a key to the batch sends the batch once it is full. */
  function Collected<V>(s: Sweep<V>, key: string): Sweep<V> {
    var batch := s.batch + [key];
    if |batch| >= DELETE_BATCH then Sweep(Without(s.store, batch), [], s.deletes + [batch])
    else s.(batch := batch)
  }

  function SweepAfter<V>(store: Keyspace<V>, script: Script<V>): Sweep<V> {
    if script == [] then Sweep(store, [], [])
    else
      var s := SweepAfter(store, script[..|script| - 1]);
      match script[|script| - 1]
      case Yield(key) => Collected(s, key)
      case Put(key, entry) => s.(store := s.store[key := entry])
      case Gone(key) => s.(store := Without(s.store, [key]))
  }

  /** What is left to do when the scan is over. */
  function Finished<V>(s: Sweep<V>): Sweep<V> {
    if s.batch == [] then s else Sweep(Without(s.store, s.batch), [], s.deletes + [s.batch])
  }

  function Yielded<V>(script: Script<V>): seq<string> {
    if script == [] then []
    else Yielded(script[..|script| - 1]) + if script[|script| - 1].Yield? then [script[|script| - 1].key] else []
  }

  /** What the other clients alone would have made of the store. */
  function OthersAlone<V>(store: Keyspace<V>, script: Script<V>): Keyspace<V> {
    if script == [] then store
    else
      var s := OthersAlone(store, script[..|script| - 1]);
      match script[|script| - 1]
      case Yield(_) => s
      case Put(key, entry) => s[key := entry]
      case Gone(key) => Without(s, [key])
  }

  predicate Rewritten<V>(script: Script<V>, key: string) {
    exists i :: 0 <= i < |script| && script[i].Put? && script[i].key == key
  }

  /** Present from the first step of the scan to the last. */
  ghost predicate PresentThroughout<V>(store: Keyspace<V>, script: Script<V>, key: string) {
    forall n :: 0 <= n <= |script| ==> key in SweepAfter(store, script[..n]).store
  }

  /** SCAN MATCH prefix* promises no more than this: matching keys only, and all that are there throughout. */
  ghost predicate IsScan<V>(store: Keyspace<V>, script: Script<V>, prefix: string) {
    && (forall k :: k in Yielded(script) ==> prefix <= k)
    && (forall k :: prefix <= k && PresentThroughout(store, script, k) ==> k in Yielded(script))
  }

  /** The batches sent so far and the one being collected are the yielded keys. */
  lemma {:induction false} SweepSends<V>(store: Keyspace<V>, script: Script<V>)
    ensures var s := SweepAfter(store, script);
      && |s.batch| < DELETE_BATCH && (forall i :: 0 <= i < |s.deletes| ==> |s.deletes[i]| == DELETE_BATCH)
      && Flatten(s.deletes) + s.batch == Yielded(script)
  {
    if script != [] {
      var front, last := script[..|script| - 1], script[|script| - 1];
      SweepSends(store, front);
      var s := SweepAfter(store, front);
      if last.Yield? {
        FlattenSnoc(s.deletes, s.batch + [last.key]);
      }
    }
  }

  /** Whatever others do meanwhile, the DELs sent are the yielded keys in batches. */
  lemma SweepSendsBatches<V>(store: Keyspace<V>, script: Script<V>)
    ensures Finished(SweepAfter(store, script)).deletes == Batches(Yielded(script), 100)
  {
    SweepSends(store, script);
    var s := SweepAfter(store, script);
    BatchesUnique(s.deletes, s.batch, DELETE_BATCH);
  }

  /** A key is in the store as others left it; or it is gone, and then it was yielded and sent. */
  ghost predicate LeftOrSent<V>(s: Sweep<V>, others: Keyspace<V>, yielded: seq<string>, key: string) {
    && (key in s.store ==> key in others && s.store[key] == others[key])
    && (key in others && key !in s.store ==> key in yielded)
    && (key in s.batch ==> key in yielded)
  }

  lemma {:induction false} SweepLeaves<V>(store: Keyspace<V>, script: Script<V>, key: string)
    ensures LeftOrSent(SweepAfter(store, script), OthersAlone(store, script), Yielded(script), key)
  {
    if script != [] {
      SweepLeaves(store, script[..|script| - 1], key);
    }
  }

  /** A key that nobody writes during the scan: once away it stays away, and so it does once yielded and sent. */
  lemma {:induction false} UnwrittenKeyGoes<V>(store: Keyspace<V>, script: Script<V>, key: string)
    requires !Rewritten(script, key)
    ensures var s := SweepAfter(store, script);
      key in s.store ==> PresentThroughout(store, script, key) && (key in Yielded(script) ==> key in s.batch)
  {
    if script == [] {
      assert forall n :: 0 <= n <= |script| ==> script[..n] == [];
    } else {
      var front := script[..|script| - 1];
      assert forall i :: 0 <= i < |front| ==> front[i] == script[i];
      assert !Rewritten(front, key);
      UnwrittenKeyGoes(store, front, key);
      assert !(script[|script| - 1].Put? && script[|script| - 1].key == key);
      assert script[..|script|] == script;
      assert forall n :: 0 <= n <= |front| ==> front[..n] == script[..n];
    }
  }

  /**
   A pattern delete among other writers, for any order and repeats of the scan: it
   never invents or alters anything, never removes a key without the prefix, and a
   key with the prefix that is there in the end was written while it ran.
   */
  lemma SweepClearsFamily<V>(store: Keyspace<V>, script: Script<V>, prefix: string, key: string)
    requires IsScan(store, script, prefix)
    ensures var after, others := Finished(SweepAfter(store, script)).store, OthersAlone(store, script);
      && (key in after ==> key in others && after[key] == others[key])
      && (!(prefix <= key) ==> (key in after <==> key in others))
      && (prefix <= key && key in after ==> Rewritten(script, key))
  {
    SweepLeaves(store, script, key);
    if key in SweepAfter(store, script).store && !Rewritten(script, key) {
      UnwrittenKeyGoes(store, script, key);
    }
  }

  /** A scan that nobody disturbs. */
  function Undisturbed<V>(keys: seq<string>): (script: Script<V>)
    ensures |script| == |keys|
  {
    seq(|keys|, i requires 0 <= i < |keys| => Yield(keys[i]))
  }

  lemma UndisturbedSweep<V>(store: Keyspace<V>, keys: seq<string>)
    ensures Yielded(Undisturbed<V>(keys)) == keys
    ensures OthersAlone(store, Undisturbed(keys)) == store
    ensures Finished(SweepAfter(store, Undisturbed(keys))).store == Without(store, keys)
  {
    UndisturbedYields<V>(store, keys);
    var script := Undisturbed<V>(keys);
    forall k | k in store
      ensures k in Finished(SweepAfter(store, script)).store <==> k !in keys
    {
      SweepLeaves(store, script, k);
      UnwrittenKeyGoes(store, script, k);
    }
    forall k | k in Finished(SweepAfter(store, script)).store
      ensures k in store && Finished(SweepAfter(store, script)).store[k] == store[k]
    {
      SweepLeaves(store, script, k);
    }
  }

  lemma {:induction false} UndisturbedYields<V>(store: Keyspace<V>, keys: seq<string>)
    ensures Yielded(Undisturbed<V>(keys)) == keys
    ensures OthersAlone(store, Undisturbed(keys)) == store
  {
    if keys != [] {
      var front := keys[..|keys| - 1];
      UndisturbedYields(store, front);
      assert Undisturbed<V>(keys)[..|keys| - 1] == Undisturbed<V>(front);
      assert keys == front + [keys[|keys| - 1]];
    }
  }

  class Server<V(==)> {
    var store: Keyspace<V>
    /** Every DEL command received so far, as the keys it named. */
    ghost var deletes: seq<seq<string>>

    constructor ()
      ensures store == map[] && deletes == []
    {
      store := map[];
      deletes := [];
    }

    method SetEx(key: string, ttl: int, value: V, now: int)
      modifies `store
      ensures store == old(store)[key := Entry(value, now + ttl)]
    {
      store := store[key := Entry(value, now + ttl)];
    }

    /** SET key value NX PX ttl. */
    method SetNx(key: string, value: V, px: int, now: int) returns (acquired: bool)
      modifies `store
      ensures acquired <==> key !in old(store) || now >= old(store)[key].expiry
      ensures store == if acquired then old(store)[key := Entry(value, now + px)] else old(store)
    {
      acquired := Lookup(store, key, now).None?;
      if acquired {
        store := store[key := Entry(value, now + px)];
      }
    }

    /** DEL: Redis refuses a DEL that names no key. */
    method Delete(keys: seq<string>)
      requires keys != []
      modifies this
      ensures store == Without(old(store), keys)
      ensures forall k :: k in store <==> k in old(store) && k !in keys
      ensures forall k :: k in store ==> store[k] == old(store)[k]
      ensures deletes == old(deletes) + [keys]
    {
      store := Without(store, keys);
      deletes := deletes + [keys];
    }

    /**
     SCAN MATCH prefix*. Callers may rely on no more than Redis promises: every key
     present throughout comes up, nothing else matches, order and repeats are free.
     */
    method Scan(prefix: string) returns (keys: seq<string>)
      ensures forall k :: k in keys ==> prefix <= k
      ensures forall k :: k in store && prefix <= k ==> k in keys
    {
      keys := [];
      var left := store.Keys;
      while left != {}
        invariant left <= store.Keys
        invariant forall k :: k in keys ==> prefix <= k
        invariant forall k :: k in store && k !in left && prefix <= k ==> k in keys
        decreases |left|
      {
        var k :| k in left;
        left := left - {k};
        if prefix <= k {
          keys := keys + [k];
        }
      }
    }

    /** The delete loop shared by cache_delete_pattern and _scan_delete, among other clients. */
    method DeleteScanned(script: Script<V>)
      modifies this
      ensures var s := Finished(SweepAfter(old(store), script));
        store == s.store && deletes == old(deletes) + s.deletes
    {
      ghost var before, sent := store, deletes;
      var batch: seq<string> := [];
      for i := 0 to |script|
        invariant SweepAfter(before, script[..i]).batch == batch
        invariant SweepAfter(before, script[..i]).store == store
        invariant sent + SweepAfter(before, script[..i]).deletes == deletes
      {
        assert script[..i + 1][..i] == script[..i];
        match script[i] {
          case Put(key, entry) =>
            store := store[key := entry];
          case Gone(key) =>
            store := Without(store, [key]);
          case Yield(key) =>
            batch := batch + [key];
            if |batch| >= DELETE_BATCH {
              Delete(batch);
              batch := [];
            }
        }
      }
      assert script[..|script|] == script;
      if batch != [] {
        Delete(batch);
      }
    }

    /** Delete every key that starts with the prefix, at most 100 keys per command, undisturbed. */
    method DeletePattern(prefix: string) returns (ghost scanned: seq<string>)
      modifies this
      ensures store == map k | k in old(store) && !(prefix <= k) :: old(store)[k]
      ensures forall k :: k in scanned ==> prefix <= k
      ensures deletes == old(deletes) + Batches(scanned, 100)
    {
      var keys := Scan(prefix);
      scanned := keys;
      UndisturbedSweep(store, keys);
      SweepSendsBatches(store, Undisturbed(keys));
      DeleteScanned(Undisturbed(keys));
    }
  }
}
