/**
 CryptoService.refresh and the background task of POST /cryptocurrencies/refresh:
 upsert, invalidate every derived family, and only then commit. Instants are
 milliseconds.
 */
module OnDemandRefresh {
  import opened Wrappers
  import opened CacheKeys
  import opened CryptoTable
  import opened Database
  import opened RefreshLog
  import opened WriteThrough
  import Redis
  import RefreshWorker

  /** The dicts of one refresh; every coin reads the clock for itself. */
  function CoinsOf(raw: seq<RawCoin>, refreshedAt: nat -> int): (r: seq<CryptoTable.Coin>)
    ensures |r| == |raw|
  {
    seq(|raw|, i requires 0 <= i < |raw| => CryptoTable.Coin(raw[i].id, raw[i].market, refreshedAt(i), None))
  }

  /** The coins table after the refresh's upsert, if the provider answers and the statement goes through. */
  function Upserted(a: Attempt, coins: CryptoTable.Table, refreshedAt: nat -> int): Option<CryptoTable.Table> {
    if a.answer.None? then None
    else
      var raw := a.answer.value;
      Upsert(coins, Stamped(CoinsOf(raw, refreshedAt), a.clock), RefreshWorker.Minted(a, |raw|))
  }

  const INVALIDATIONS: nat := 3

  /** The store once the first n invalidations have gone through: lists, details, top movers. */
  function Cleared(store: Store, n: nat): Store {
    var lists := if n >= 1 then Dropped(store, LIST_PREFIX) else store;
    var details := if n >= 2 then Dropped(lists, DETAIL_PREFIX) else lists;
    if n >= 3 then Dropped(details, MOVERS_PREFIX) else details
  }

  /** Exactly the coin-derived families go, one by one; histories, idempotency markers and every lock stay. */
  lemma ClearedDropsDerivedFamilies(store: Store, n: nat, k: Key)
    requires Render(k) in store
    ensures Render(k) !in Cleared(store, n) <==>
      (n >= 1 && k.List?) || (n >= 2 && (k.Detail? || k.DetailAlias?)) || (n >= 3 && k.TopMovers?)
    ensures Render(k) in Cleared(store, n) ==> Cleared(store, n)[Render(k)] == store[Render(k)]
  {
    PatternsSelectFamilies(k);
  }

  lemma ClearedOfDerived(store: Store)
    ensures forall k: Key ::
      k.List? || k.Detail? || k.DetailAlias? || k.TopMovers? ==> Render(k) !in Cleared(store, INVALIDATIONS)
  {
    forall k: Key | k.List? || k.Detail? || k.DetailAlias? || k.TopMovers?
      ensures Render(k) !in Cleared(store, INVALIDATIONS)
    {
      if Render(k) in store {
        ClearedDropsDerivedFamilies(store, INVALIDATIONS, k);
      }
    }
  }

  /** Whether the upsert goes through does not depend on any clock. */
  lemma AcceptedIff(a: Attempt, coins: CryptoTable.Table, refreshedAt: nat -> int)
    ensures Upserted(a, coins, refreshedAt).Some? <==> a.answer.Some? && Acceptable(coins, a.answer.value, a.minted)
  {
    if a.answer.Some? {
      var raw := a.answer.value;
      UpsertAccepts(coins, raw, refreshedAt, a.clock, a.minted,
        Stamped(CoinsOf(raw, refreshedAt), a.clock), RefreshWorker.Minted(a, |raw|));
    }
  }

  class CryptoService {
    const db: Session
    const redis: Redis.Server<Payload>

    constructor (db: Session, redis: Redis.Server<Payload>)
      ensures this.db == db && this.redis == redis
    {
      this.db, this.redis := db, redis;
    }

    /** The three pattern deletes; Redis may give out before any of them. */
    method Invalidate(commands: nat) returns (done: bool)
      modifies redis
      ensures done <==> commands >= 3
      ensures redis.store == Cleared(old(redis.store), commands)
    {
      if commands < 1 {
        return false;
      }
      var _ := redis.DeletePattern(LIST_PREFIX);
      if commands < 2 {
        return false;
      }
      var _ := redis.DeletePattern(DETAIL_PREFIX);
      if commands < 3 {
        return false;
      }
      var _ := redis.DeletePattern(MOVERS_PREFIX);
      return true;
    }

    /** refresh(): the upsert is in the session when the caches are dropped, not yet in the database. */
    method Refresh(a: Attempt, refreshedAt: nat -> int) returns (r: Result<nat>)
      modifies db, redis
      ensures db.committed == old(db.committed)
      ensures var after := Upserted(a, old(db.working).coins, refreshedAt);
        && db.working == (if after.Some? then old(db.working).(coins := after.value) else old(db.working))
        && redis.store == (if after.Some? then Cleared(old(redis.store), a.redisCommands) else old(redis.store))
        && (r.Ok? <==> after.Some? && a.redisCommands >= 3)
      ensures r.Ok? ==> r.value == |a.answer.value|
      ensures Upserted(a, old(db.working).coins, refreshedAt).Some?
        <==> a.answer.Some? && Acceptable(old(db.working).coins, a.answer.value, a.minted)
      ensures Upserted(a, old(db.working).coins, refreshedAt).Some? ==>
        StoredAs(old(db.working).coins, a.answer.value, refreshedAt, a.clock, a.minted, db.working.coins)
    {
      if a.answer.None? {
        return Err(a.error);
      }
      var raw := a.answer.value;
      AcceptedIff(a, db.working.coins, refreshedAt);
      r := db.UpsertMany(CoinsOf(raw, refreshedAt), RefreshWorker.Minted(a, |raw|), a.clock);
      if r.Ok? {
        UpsertStores(old(db.working).coins, raw, refreshedAt, a.clock, a.minted,
          Stamped(CoinsOf(raw, refreshedAt), a.clock), RefreshWorker.Minted(a, |raw|));
        var done := Invalidate(a.redisCommands);
        if !done {
          return Err(a.error);
        }
      }
    }

    /**
     The background task: a session of its own, refresh, commit. The caches can be cleared
     without a commit, never the other way round.
     */
    method RunInBackground(a: Attempt, refreshedAt: nat -> int) returns (completed: bool)
      requires Injective(db.committed.coins)
      modifies db, redis
      ensures var after := Upserted(a, old(db.committed).coins, refreshedAt);
        && (after.Some? <==> a.answer.Some? && Acceptable(old(db.committed).coins, a.answer.value, a.minted))
        && (completed <==> after.Some? && a.redisCommands >= 3 && a.commits)
        && db.committed == (if completed then old(db.committed).(coins := after.value) else old(db.committed))
        && redis.store == (if after.Some? then Cleared(old(redis.store), a.redisCommands) else old(redis.store))
      ensures completed ==> forall k: Key ::
        k.List? || k.Detail? || k.DetailAlias? || k.TopMovers? ==> Render(k) !in redis.store
      ensures completed ==>
        && RowsMatch(a.answer.value, db.committed.coins)
        && StoredAs(old(db.committed).coins, a.answer.value, refreshedAt, a.clock, a.minted, db.committed.coins)
      ensures RefreshWorker.SameCoins(old(db.committed).coins, db.committed.coins)
    {
      db.Begin();
      var r := Refresh(a, refreshedAt);
      if r.Err? || !a.commits {
        return false;
      }
      UpsertRefreshes(old(db.committed).coins,
        Stamped(CoinsOf(a.answer.value, refreshedAt), a.clock), RefreshWorker.Minted(a, |a.answer.value|));
      db.Commit();
      ClearedOfDerived(old(redis.store));
      StoredRowsMatch(old(db.committed).coins, a.answer.value, refreshedAt, a.clock, a.minted, db.committed.coins);
      return true;
    }
  }
}
