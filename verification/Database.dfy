/**
 One database session: statements change the session's own view, commit publishes
 it, and closing without commit drops it.
 */
module Database {
  import opened Wrappers
  import opened CacheKeys
  import opened CryptoTable
  import opened PriceHistory

  datatype DeadLetter = DeadLetter(page: int, error: string)

  datatype Tables = Tables(coins: CryptoTable.Table, history: seq<Snapshot>, deadLetters: seq<DeadLetter>)

  const ERROR_LIMIT: nat := 2000

  function Shorten(error: string): (r: string)
    ensures r <= error && |r| == if |error| <= 2000 then |error| else 2000
  {
    if |error| <= ERROR_LIMIT then error else error[..ERROR_LIMIT]
  }

  /** upsert_many stamps every dict with the clock before the statement runs. */
  function Stamped(coins: seq<Coin>, clock: nat -> int): (r: seq<Coin>)
    ensures |r| == |coins| && forall i :: 0 <= i < |coins| ==> r[i] == coins[i].(lastUpdatedAt := Some(clock(i)))
  {
    seq(|coins|, i requires 0 <= i < |coins| => coins[i].(lastUpdatedAt := Some(clock(i))))
  }

  class Session {
    var committed: Tables
    var working: Tables

    constructor (tables: Tables)
      ensures committed == tables && working == tables
    {
      committed, working := tables, tables;
    }

    method Begin()
      modifies this
      ensures committed == old(committed) && working == committed
    {
      working := committed;
    }

    method Commit()
      modifies this
      ensures committed == working == old(working)
    {
      committed := working;
    }

    method UpsertMany(batch: seq<Coin>, minted: seq<Uuid>, clock: nat -> int) returns (r: Result<nat>)
      requires |minted| == |batch|
      modifies this
      ensures committed == old(committed)
      ensures var after := Upsert(old(working).coins, Stamped(batch, clock), minted);
        && working == (if after.Some? then old(working).(coins := after.value) else old(working))
        && r == (if after.Some? then Ok(|batch|) else Err("DBAPIError"))
    {
      var coins := batch;
      for i := 0 to |coins|
        invariant |coins| == |batch|
        invariant forall j :: 0 <= j < i ==> coins[j] == batch[j].(lastUpdatedAt := Some(clock(j)))
        invariant forall j :: i <= j < |coins| ==> coins[j] == batch[j]
      {
        coins := coins[i := coins[i].(lastUpdatedAt := Some(clock(i)))];
      }
      assert coins == Stamped(batch, clock);
      var after := Upsert(working.coins, coins, minted);
      if after.Some? {
        working := working.(coins := after.value);
        return Ok(|batch|);
      }
      return Err("DBAPIError");
    }

    method AppendPriceSnapshot(row: Snapshot)
      modifies this
      ensures committed == old(committed)
      ensures working == old(working).(history := old(working).history + [row])
    {
      working := working.(history := working.history + [row]);
    }

    method WriteDeadLetter(page: int, error: string)
      modifies this
      ensures committed == old(committed)
      ensures working == old(working).(deadLetters := old(working).deadLetters + [DeadLetter(page, Shorten(error))])
    {
      working := working.(deadLetters := working.deadLetters + [DeadLetter(page, Shorten(error))]);
    }

    /** Returns the number of rows deleted. */
    method PurgeOldHistory(now: int, keepDays: int) returns (removed: int)
      modifies this
      ensures committed == old(committed)
      ensures working == old(working).(history := Purged(old(working).history, now - Days(keepDays)))
      ensures forall row ::
        multiset(working.history)[row] ==
          if row.recordedAt < now - keepDays * 86_400_000 then 0 else multiset(old(working).history)[row]
      ensures |working.history| + removed == |old(working).history| && removed >= 0
    {
      var kept := Purged(working.history, now - Days(keepDays));
      PurgedLength(working.history, |working.history|, now - Days(keepDays));
      forall row: Snapshot
        ensures multiset(kept)[row] ==
          if row.recordedAt < now - keepDays * 86_400_000 then 0 else multiset(working.history)[row]
      {
        PurgedRows(working.history, now - Days(keepDays), row);
      }
      removed := |working.history| - |kept|;
      working := working.(history := kept);
    }
  }

  lemma {:induction false} PurgedLength(rows: seq<Snapshot>, n: nat, cutoff: int)
    requires n <= |rows|
    ensures |PurgedUpTo(rows, n, cutoff)| <= n
  {
    if n > 0 {
      PurgedLength(rows, n - 1, cutoff);
    }
  }
}
