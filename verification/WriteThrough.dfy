/**
 The worker's write-through: after committing a page it stores every coin under its
 UUID key and its external_id alias, so that detail reads find what the database
 holds. This file says what the store looks like afterwards.
 */
module WriteThrough {
  import opened Wrappers
  import opened CacheKeys
  import opened CryptoTable
  import opened RefreshLog
  import Redis

  /** What the keys involved hold: a lock marker, a rendered coin, or some other JSON text. */
  datatype Payload = Marker | Coin(dict: CoinDict) | Json(text: string)

  type Store = Redis.Keyspace<Payload>

  /** CACHE_TTL = 310 seconds */
  const CACHE_TTL_MS: int := 310_000

  /** The dict the worker builds from the provider's answer and the row's UUID, with age 0. */
  function PageDict(c: RawCoin, row: Row, now: int): CoinDict {
    CoinDict(row.id, c.id, c.market, Some(now), Some(0))
  }

  function EntryFor(c: RawCoin, row: Row, now: int, at: int): Redis.Entry<Payload> {
    Redis.Entry(Payload.Coin(PageDict(c, row, now)), at + CACHE_TTL_MS)
  }

  /** The store once the first n coins of the page have been written. */
  function Written(store: Store, raw: seq<RawCoin>, table: Table, now: int, at: int, n: nat): Store
    requires n <= |raw| && forall i :: 0 <= i < |raw| ==> raw[i].id in table
  {
    if n == 0 then store
    else
      var c := raw[n - 1];
      var e := EntryFor(c, table[c.id], now, at);
      Written(store, raw, table, now, at, n - 1)
        [Render(Detail(table[c.id].id)) := e]
        [Render(DetailAlias(c.id)) := e]
  }

  /** The store after that many of the page's SETEX commands: a coin's UUID key comes before its alias. */
  function WrittenBy(store: Store, raw: seq<RawCoin>, table: Table, now: int, at: int, commands: nat): Store
    requires forall i :: 0 <= i < |raw| ==> raw[i].id in table
  {
    if commands >= 2 * |raw| then Written(store, raw, table, now, at, |raw|)
    else
      var n := commands / 2;
      var row := table[raw[n].id];
      var pairs := Written(store, raw, table, now, at, n);
      if commands % 2 == 0 then pairs else pairs[Render(Detail(row.id)) := EntryFor(raw[n], row, now, at)]
  }

  /** The store after that many of all the page's commands: the SETEXs, then the two pattern deletes. */
  function Published(store: Store, raw: seq<RawCoin>, table: Table, now: int, at: int, commands: nat): Store
    requires forall i :: 0 <= i < |raw| ==> raw[i].id in table
  {
    var written := WrittenBy(store, raw, table, now, at, commands);
    if commands <= 2 * |raw| then written
    else if commands == 2 * |raw| + 1 then Dropped(written, LIST_PREFIX)
    else Invalidated(written)
  }

  /** The batch's rows hold the batch's data. */
  ghost predicate RowsMatch(raw: seq<RawCoin>, table: Table) {
    forall i :: 0 <= i < |raw| ==> raw[i].id in table && table[raw[i].id].market == raw[i].market
  }

  /** One instant for every coin. */
  function Always(now: int): nat -> int {
    (i: nat) => now
  }

  predicate Named(raw: seq<RawCoin>, e: string) {
    exists i :: 0 <= i < |raw| && raw[i].id == e
  }

  /** Coin i is in the table with its data and instants, under the UUID it had before or else its new one. */
  predicate StoredCoin(
      before: Table, raw: seq<RawCoin>, i: nat, refreshedAt: nat -> int, clock: nat -> int, minted: nat -> Uuid,
      after: Table)
    requires i < |raw|
  {
    var e := raw[i].id;
    && e in after
    && after[e].market == raw[i].market
    && after[e].lastRefreshedAt == Some(refreshedAt(i))
    && after[e].lastUpdatedAt == Some(clock(i))
    && after[e].id == if e in before then before[e].id else minted(i)
  }

  /** The answer is in the table coin by coin, and rows outside the answer are as they were. */
  predicate StoredAs(
      before: Table, raw: seq<RawCoin>, refreshedAt: nat -> int, clock: nat -> int, minted: nat -> Uuid, after: Table)
  {
    && (forall i :: 0 <= i < |raw| ==> StoredCoin(before, raw, i, refreshedAt, clock, minted, after))
    && (forall e :: e in before ==> e in after)
    && (forall e :: e in after && !Named(raw, e) ==> e in before && after[e] == before[e])
  }

  /** The dicts and UUIDs of an upsert are those of the answer. */
  predicate BatchOf(
      raw: seq<RawCoin>, refreshedAt: nat -> int, clock: nat -> int, minted: nat -> Uuid, coins: seq<CryptoTable.Coin>,
      ids: seq<Uuid>)
  {
    && |coins| == |ids| == |raw|
    && forall i :: 0 <= i < |raw| ==>
         ids[i] == minted(i)
         && coins[i] == CryptoTable.Coin(raw[i].id, raw[i].market, refreshedAt(i), Some(clock(i)))
  }

  /** What PostgreSQL accepts: every coin once, values that fit, and a UUID of its own for each new coin. */
  ghost predicate Acceptable(t: Table, raw: seq<RawCoin>, minted: nat -> Uuid) {
    && DistinctRaw(raw)
    && (forall i :: 0 <= i < |raw| ==> Fits(raw[i].id, raw[i].market))
    && (forall i, e :: 0 <= i < |raw| && raw[i].id !in t && e in t ==> t[e].id != minted(i))
    && (forall i, j :: 0 <= j < i < |raw| && raw[i].id !in t && raw[j].id !in t ==> minted(i) != minted(j))
  }

  lemma UpsertAccepts(
      t: Table, raw: seq<RawCoin>, refreshedAt: nat -> int, clock: nat -> int, minted: nat -> Uuid,
      coins: seq<CryptoTable.Coin>, ids: seq<Uuid>)
    requires BatchOf(raw, refreshedAt, clock, minted, coins, ids)
    ensures Upsert(t, coins, ids).Some? <==> Acceptable(t, raw, minted)
  {
    UpsertSucceedsIff(t, coins, ids);
    NewIdsAreOwn(t, raw, refreshedAt, clock, minted, coins, ids);
    assert DistinctIds(coins) <==> DistinctRaw(raw);
    assert AllFit(coins) <==> forall i :: 0 <= i < |raw| ==> Fits(raw[i].id, raw[i].market);
  }

  lemma NewIdsAreOwn(
      t: Table, raw: seq<RawCoin>, refreshedAt: nat -> int, clock: nat -> int, minted: nat -> Uuid,
      coins: seq<CryptoTable.Coin>, ids: seq<Uuid>)
    requires BatchOf(raw, refreshedAt, clock, minted, coins, ids)
    ensures NewIdsUsable(t, coins, ids) <==>
      && (forall i, e :: 0 <= i < |raw| && raw[i].id !in t && e in t ==> t[e].id != minted(i))
      && (forall i, j :: 0 <= j < i < |raw| && raw[i].id !in t && raw[j].id !in t ==> minted(i) != minted(j))
  {
    forall i | 0 <= i < |raw|
      ensures Usable(t, coins, ids, i) <==>
        || raw[i].id in t
        || ((forall e :: e in t ==> t[e].id != minted(i))
          && (forall j :: 0 <= j < i && raw[j].id !in t ==> minted(i) != minted(j)))
    {
    }
  }

  lemma StoredRowsMatch(
      before: Table, raw: seq<RawCoin>, refreshedAt: nat -> int, clock: nat -> int, minted: nat -> Uuid, after: Table)
    requires StoredAs(before, raw, refreshedAt, clock, minted, after)
    ensures RowsMatch(raw, after)
  {
    forall i | 0 <= i < |raw|
      ensures raw[i].id in after && after[raw[i].id].market == raw[i].market
    {
      assert StoredCoin(before, raw, i, refreshedAt, clock, minted, after);
    }
  }

  lemma UpsertStores(
      t: Table, raw: seq<RawCoin>, refreshedAt: nat -> int, clock: nat -> int, minted: nat -> Uuid,
      coins: seq<CryptoTable.Coin>, ids: seq<Uuid>)
    requires BatchOf(raw, refreshedAt, clock, minted, coins, ids) && Upsert(t, coins, ids).Some?
    ensures StoredAs(t, raw, refreshedAt, clock, minted, Upsert(t, coins, ids).value)
  {
    var after := Upsert(t, coins, ids).value;
    UpsertRefreshes(t, coins, ids);
    forall i | 0 <= i < |raw|
      ensures StoredCoin(t, raw, i, refreshedAt, clock, minted, after)
    {
      InBatch(coins, i);
      assert RowCarries(after[coins[i].externalId], coins[i]);
    }
    forall e | e in Batch(coins)
      ensures Named(raw, e)
    {
      var c :| c in coins && c.externalId == e;
      var i :| 0 <= i < |coins| && coins[i] == c;
      assert raw[i].id == e;
    }
  }

  /**
   Coin i can be read by UUID and by alias for 310 s: the row's own data, rendered at the run's
   instant with age 0, so that only the two time fields differ from what a reader would render.
   */
  ghost predicate Readable(store: Store, raw: seq<RawCoin>, table: Table, i: nat, now: int, at: int)
    requires i < |raw| && raw[i].id in table
  {
    var row := table[raw[i].id];
    var byUuid, byAlias := Render(Detail(row.id)), Render(DetailAlias(raw[i].id));
    && byUuid in store && byAlias in store && store[byUuid] == store[byAlias]
    && store[byUuid].expiry == at + 310_000
    && store[byUuid].value.Coin?
    && store[byUuid].value.dict.lastUpdatedAt == Some(now) && store[byUuid].value.dict.dataAgeSeconds == Some(0)
    && forall t: int :: AgreeButForTimes(store[byUuid].value.dict, CoinToDict(raw[i].id, row, t))
  }

  /** Writing one coin leaves another coin's keys alone. */
  lemma WritesElsewhere(raw: seq<RawCoin>, table: Table, i: nat, n: nat)
    requires i < |raw| && n < |raw| && i != n && DistinctRaw(raw) && Injective(table) && RowsMatch(raw, table)
    ensures var key := Render(Detail(table[raw[i].id].id));
      key != Render(Detail(table[raw[n].id].id)) && key != Render(DetailAlias(raw[n].id))
    ensures var key := Render(DetailAlias(raw[i].id));
      key != Render(Detail(table[raw[n].id].id)) && key != Render(DetailAlias(raw[n].id))
  {
    var mine, other := table[raw[i].id], table[raw[n].id];
    assert raw[i].id != raw[n].id && mine.id != other.id;
    DifferentKeys(Detail(mine.id), Detail(other.id));
    DifferentKeys(Detail(mine.id), DetailAlias(raw[n].id));
    DifferentKeys(DetailAlias(raw[i].id), Detail(other.id));
    DifferentKeys(DetailAlias(raw[i].id), DetailAlias(raw[n].id));
  }

  lemma WriteKeepsEarlier(store: Store, raw: seq<RawCoin>, table: Table, now: int, at: int, i: nat, n: nat)
    requires i < n < |raw| && DistinctRaw(raw) && Injective(table) && RowsMatch(raw, table)
    requires Readable(Written(store, raw, table, now, at, n), raw, table, i, now, at)
    ensures Readable(Written(store, raw, table, now, at, n + 1), raw, table, i, now, at)
  {
    WritesElsewhere(raw, table, i, n);
  }

  lemma WriteIsReadable(store: Store, raw: seq<RawCoin>, table: Table, now: int, at: int, n: nat)
    requires n < |raw| && RowsMatch(raw, table)
    ensures Readable(Written(store, raw, table, now, at, n + 1), raw, table, n, now, at)
  {
  }

  lemma DifferentKeys(j: Key, k: Key)
    requires j != k
    ensures Render(j) != Render(k)
  {
    if Render(j) == Render(k) {
      RenderInjective(j, k);
    }
  }

  lemma {:induction false} CoinIsReadable(
      store: Store, raw: seq<RawCoin>, table: Table, now: int, at: int, n: nat, i: nat)
    requires i < n <= |raw| && DistinctRaw(raw) && Injective(table) && RowsMatch(raw, table)
    ensures Readable(Written(store, raw, table, now, at, n), raw, table, i, now, at)
  {
    if i == n - 1 {
      WriteIsReadable(store, raw, table, now, at, i);
    } else {
      CoinIsReadable(store, raw, table, now, at, n - 1, i);
      WriteKeepsEarlier(store, raw, table, now, at, i, n - 1);
    }
  }

  lemma WrittenIsReadable(store: Store, raw: seq<RawCoin>, table: Table, now: int, at: int, n: nat)
    requires n <= |raw| && DistinctRaw(raw) && Injective(table) && RowsMatch(raw, table)
    ensures forall i :: 0 <= i < n ==> Readable(Written(store, raw, table, now, at, n), raw, table, i, now, at)
  {
    forall i | 0 <= i < n
      ensures Readable(Written(store, raw, table, now, at, n), raw, table, i, now, at)
    {
      CoinIsReadable(store, raw, table, now, at, n, i);
    }
  }

  /** Only detail keys are written. */
  lemma {:induction false} WrittenElsewhere(
      store: Store, raw: seq<RawCoin>, table: Table, now: int, at: int, n: nat, key: string)
    requires n <= |raw| && forall i :: 0 <= i < |raw| ==> raw[i].id in table
    requires !Matches(DETAIL_PREFIX, key)
    ensures key in Written(store, raw, table, now, at, n) <==> key in store
    ensures key in store ==> Written(store, raw, table, now, at, n)[key] == store[key]
  {
    if n > 0 {
      WrittenElsewhere(store, raw, table, now, at, n - 1, key);
      PatternsSelectFamilies(Detail(table[raw[n - 1].id].id));
      PatternsSelectFamilies(DetailAlias(raw[n - 1].id));
    }
  }

  /** The store holds the entry under the key if it has been written, and what it held before if not. */
  predicate HoldsIf(written: bool, before: Store, after: Store, key: string, entry: Redis.Entry<Payload>) {
    if written then key in after && after[key] == entry
    else (key in after <==> key in before) && (key in before ==> after[key] == before[key])
  }

  lemma PairElsewhere(
      before: Store, middle: Store, first: string, second: string, e: Redis.Entry<Payload>,
      written: bool, key: string, entry: Redis.Entry<Payload>)
    requires HoldsIf(written, before, middle, key, entry) && key != first && key != second
    ensures HoldsIf(written, before, middle[first := e][second := e], key, entry)
  {
  }

  /** A coin's UUID key is written with the coin, and not before. */
  lemma {:induction false} WrittenAtDetail(
      store: Store, raw: seq<RawCoin>, table: Table, now: int, at: int, n: nat, i: nat)
    requires i < |raw| && n <= |raw| && DistinctRaw(raw) && Injective(table) && RowsMatch(raw, table)
    ensures HoldsIf(i < n, store, Written(store, raw, table, now, at, n),
      Render(Detail(table[raw[i].id].id)), EntryFor(raw[i], table[raw[i].id], now, at))
  {
    if n > 0 {
      var mine, last := table[raw[i].id], table[raw[n - 1].id];
      if i == n - 1 {
        DifferentKeys(Detail(mine.id), DetailAlias(raw[i].id));
      } else {
        WrittenAtDetail(store, raw, table, now, at, n - 1, i);
        WritesElsewhere(raw, table, i, n - 1);
        PairElsewhere(store, Written(store, raw, table, now, at, n - 1),
          Render(Detail(last.id)), Render(DetailAlias(raw[n - 1].id)), EntryFor(raw[n - 1], last, now, at),
          i < n, Render(Detail(mine.id)), EntryFor(raw[i], mine, now, at));
      }
    }
  }

  /** Detail entries that are not as before were stored between those instants. */
  ghost predicate StampedBetween(before: Store, after: Store, from: int, to: int) {
    forall k :: k in after && Matches(DETAIL_PREFIX, k) ==>
      (k in before && after[k] == before[k]) || from + CACHE_TTL_MS <= after[k].expiry <= to + CACHE_TTL_MS
  }

  lemma {:induction false} WrittenStamped(store: Store, raw: seq<RawCoin>, table: Table, now: int, at: int, n: nat)
    requires n <= |raw| && forall i :: 0 <= i < |raw| ==> raw[i].id in table
    ensures StampedBetween(store, Written(store, raw, table, now, at, n), at, at)
  {
    if n > 0 {
      WrittenStamped(store, raw, table, now, at, n - 1);
      StampOne(store, Written(store, raw, table, now, at, n - 1), Render(Detail(table[raw[n - 1].id].id)),
        EntryFor(raw[n - 1], table[raw[n - 1].id], now, at), at);
      StampOne(store, Written(store, raw, table, now, at, n - 1)
          [Render(Detail(table[raw[n - 1].id].id)) := EntryFor(raw[n - 1], table[raw[n - 1].id], now, at)],
        Render(DetailAlias(raw[n - 1].id)), EntryFor(raw[n - 1], table[raw[n - 1].id], now, at), at);
    }
  }

  lemma StampOne(before: Store, middle: Store, key: string, e: Redis.Entry<Payload>, at: int)
    requires StampedBetween(before, middle, at, at) && e.expiry == at + CACHE_TTL_MS
    ensures StampedBetween(before, middle[key := e], at, at)
  {
  }

  lemma PublishedStamped(store: Store, raw: seq<RawCoin>, table: Table, now: int, at: int, commands: nat)
    requires forall i :: 0 <= i < |raw| ==> raw[i].id in table
    ensures StampedBetween(store, Published(store, raw, table, now, at, commands), at, at)
  {
    if commands >= 2 * |raw| {
      WrittenStamped(store, raw, table, now, at, |raw|);
    } else {
      var n := commands / 2;
      WrittenStamped(store, raw, table, now, at, n);
      StampOne(store, Written(store, raw, table, now, at, n), Render(Detail(table[raw[n].id].id)),
        EntryFor(raw[n], table[raw[n].id], now, at), at);
    }
  }

  /** The store with a whole family invalidated. */
  function Dropped(store: Store, prefix: string): Store {
    map k | k in store && !Matches(prefix, k) :: store[k]
  }

  function Invalidated(store: Store): Store {
    Dropped(Dropped(store, LIST_PREFIX), MOVERS_PREFIX)
  }

  /** Dropping the derived families leaves every coin of the page readable. */
  lemma InvalidationSparesDetails(store: Store, raw: seq<RawCoin>, table: Table, i: nat, now: int, at: int)
    requires i < |raw| && raw[i].id in table && Readable(store, raw, table, i, now, at)
    ensures Readable(Invalidated(store), raw, table, i, now, at)
  {
    PatternsSelectFamilies(Detail(table[raw[i].id].id));
    PatternsSelectFamilies(DetailAlias(raw[i].id));
  }
}
