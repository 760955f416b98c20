/**
 The cryptocurrencies table and its bulk upsert. A row is found by its external_id
 and carries the UUID that clients and cache keys use; the upsert must refresh
 everything about a coin except that UUID. Instants are milliseconds.
 */
module CryptoTable {
  import opened Wrappers
  import opened CacheKeys

  /** What CoinGecko says about a coin, kept in one column per field. */
  datatype Market = Market(
    name: string,
    symbol: string,
    currentPrice: Option<real>,
    marketCap: Option<real>,
    priceChange24h: Option<real>,
    imageUrl: Option<string>,
    marketCapRank: Option<int>)

  /** One dict of the list handed to upsert_many. */
  datatype Coin = Coin(externalId: string, market: Market, lastRefreshedAt: int, lastUpdatedAt: Option<int>)

  datatype Row = Row(id: Uuid, market: Market, lastUpdatedAt: Option<int>, lastRefreshedAt: Option<int>)

  /** Rows by external_id, which is unique. */
  type Table = map<string, Row>

  /** What the API and the cache show of a coin. */
  datatype CoinDict = CoinDict(
    id: string,
    externalId: string,
    market: Market,
    lastUpdatedAt: Option<int>,
    dataAgeSeconds: Option<int>)

  /** int(seconds) truncates toward zero. */
  function WholeSeconds(ms: int): int {
    if ms < 0 then -((-ms) / 1000) else ms / 1000
  }

  /** The whole seconds in so many milliseconds, with their sign. */
  predicate IsWholeSeconds(seconds: int, ms: int) {
    if ms >= 0 then seconds * 1000 <= ms < (seconds + 1) * 1000 else (seconds - 1) * 1000 < ms <= seconds * 1000
  }

  /** The row as it stands, and the whole seconds since its refresh, if it ever had one. */
  function CoinToDict(externalId: string, row: Row, now: int): (r: CoinDict)
    ensures r.id == row.id && r.externalId == externalId
    ensures r.market == row.market && r.lastUpdatedAt == row.lastUpdatedAt
    ensures r.dataAgeSeconds.Some? <==> row.lastRefreshedAt.Some?
    ensures row.lastRefreshedAt.Some? ==> IsWholeSeconds(r.dataAgeSeconds.value, now - row.lastRefreshedAt.value)
  {
    CoinDict(row.id, externalId, row.market, row.lastUpdatedAt,
      if row.lastRefreshedAt.Some? then Some(WholeSeconds(now - row.lastRefreshedAt.value)) else None)
  }

  /** Equal in everything but the two fields that depend on the moment of rendering. */
  predicate AgreeButForTimes(a: CoinDict, b: CoinDict) {
    a.id == b.id && a.externalId == b.externalId && a.market == b.market
  }

  predicate DistinctIds(coins: seq<Coin>) {
    forall i, j :: 0 <= i < j < |coins| ==> coins[i].externalId != coins[j].externalId
  }

  /** The columns hold so many characters, and a rank of 32 bits. */
  predicate Fits(externalId: string, m: Market) {
    && |externalId| <= 100 && |m.name| <= 100 && |m.symbol| <= 20
    && (m.imageUrl.Some? ==> |m.imageUrl.value| <= 500)
    && (m.marketCapRank.Some? ==> -0x8000_0000 <= m.marketCapRank.value < 0x8000_0000)
  }

  predicate AllFit(coins: seq<Coin>) {
    forall i :: 0 <= i < |coins| ==> Fits(coins[i].externalId, coins[i].market)
  }

  function Batch(coins: seq<Coin>): set<string> {
    set c | c in coins :: c.externalId
  }

  predicate IdTaken(t: Table, id: Uuid) {
    exists e :: e in t && t[e].id == id
  }

  /** No two rows share a UUID. */
  ghost predicate Injective(t: Table) {
    forall d, e :: d in t && e in t && t[d].id == t[e].id ==> d == e
  }

  /** INSERT ... ON CONFLICT (external_id) DO UPDATE for one coin; a taken primary key is an error. */
  function UpsertOne(t: Table, c: Coin, minted: Uuid): Option<Table> {
    if c.externalId in t then
      Some(t[c.externalId := Row(t[c.externalId].id, c.market, c.lastUpdatedAt, Some(c.lastRefreshedAt))])
    else if IdTaken(t, minted) then None
    else Some(t[c.externalId := Row(minted, c.market, c.lastUpdatedAt, Some(c.lastRefreshedAt))])
  }

  function UpsertEach(t: Table, coins: seq<Coin>, minted: seq<Uuid>): Option<Table>
    requires |minted| == |coins|
  {
    if coins == [] then Some(t)
    else
      var before := UpsertEach(t, coins[..|coins| - 1], minted[..|coins| - 1]);
      if before.None? then None else UpsertOne(before.value, coins[|coins| - 1], minted[|coins| - 1])
  }

  /**
   The whole statement: PostgreSQL refuses oversized values and a second update of one row,
   and an error undoes all of it.
   */
  function Upsert(t: Table, coins: seq<Coin>, minted: seq<Uuid>): Option<Table>
    requires |minted| == |coins|
  {
    if DistinctIds(coins) && AllFit(coins) then UpsertEach(t, coins, minted) else None
  }

  /** The row a coin of the batch ends up with. */
  ghost predicate RowCarries(row: Row, c: Coin) {
    row.market == c.market && row.lastUpdatedAt == c.lastUpdatedAt && row.lastRefreshedAt == Some(c.lastRefreshedAt)
  }

  /** t2 is t1 refreshed by the batch: same UUIDs, nothing else touched, every coin's data in place. */
  ghost predicate Refreshed(t1: Table, coins: seq<Coin>, minted: seq<Uuid>, t2: Table)
    requires |minted| == |coins|
  {
    && t2.Keys == t1.Keys + Batch(coins)
    && (forall e :: e in t1 ==> t2[e].id == t1[e].id)
    && (forall e :: e in t1 && e !in Batch(coins) ==> t2[e] == t1[e])
    && (forall i :: 0 <= i < |coins| ==> RowCarries(t2[coins[i].externalId], coins[i]))
    && (forall i :: 0 <= i < |coins| && coins[i].externalId !in t1 ==> t2[coins[i].externalId].id == minted[i])
  }

  lemma BatchSnoc(coins: seq<Coin>)
    requires coins != []
    ensures Batch(coins) == Batch(coins[..|coins| - 1]) + {coins[|coins| - 1].externalId}
  {
    var n := |coins| - 1;
    assert coins == coins[..n] + [coins[n]];
  }

  lemma InBatch(coins: seq<Coin>, i: nat)
    requires i < |coins|
    ensures coins[i].externalId in Batch(coins)
  {
    assert coins[i] in coins;
  }

  /** One more coin, different from all before it. */
  lemma RefreshedSnoc(t: Table, coins: seq<Coin>, minted: seq<Uuid>, before: Table, after: Table)
    requires |minted| == |coins| > 0 && DistinctIds(coins)
    requires Refreshed(t, coins[..|coins| - 1], minted[..|coins| - 1], before)
    requires UpsertOne(before, coins[|coins| - 1], minted[|coins| - 1]) == Some(after)
    ensures Refreshed(t, coins, minted, after)
  {
    var n := |coins| - 1;
    BatchSnoc(coins);
    assert coins[n].externalId !in Batch(coins[..n]);
    forall i | 0 <= i < |coins|
      ensures RowCarries(after[coins[i].externalId], coins[i])
      ensures coins[i].externalId !in t ==> after[coins[i].externalId].id == minted[i]
    {
      if i < n {
        EarlierCoinStands(t, coins, minted, before, after, i);
      }
    }
  }

  lemma EarlierCoinStands(t: Table, coins: seq<Coin>, minted: seq<Uuid>, before: Table, after: Table, i: nat)
    requires |minted| == |coins| && i < |coins| - 1 && DistinctIds(coins)
    requires Refreshed(t, coins[..|coins| - 1], minted[..|coins| - 1], before)
    requires UpsertOne(before, coins[|coins| - 1], minted[|coins| - 1]) == Some(after)
    ensures coins[i].externalId in after && after[coins[i].externalId] == before[coins[i].externalId]
    ensures RowCarries(after[coins[i].externalId], coins[i])
    ensures coins[i].externalId !in t ==> after[coins[i].externalId].id == minted[i]
  {
    var n := |coins| - 1;
    InBatch(coins[..n], i);
    assert coins[..n][i] == coins[i] && minted[..n][i] == minted[i];
  }

  lemma {:induction false} UpsertEachRefreshes(t: Table, coins: seq<Coin>, minted: seq<Uuid>)
    requires |minted| == |coins| && DistinctIds(coins)
    requires UpsertEach(t, coins, minted).Some?
    ensures Refreshed(t, coins, minted, UpsertEach(t, coins, minted).value)
    ensures Injective(t) ==> Injective(UpsertEach(t, coins, minted).value)
  {
    if coins != [] {
      var n := |coins| - 1;
      UpsertEachRefreshes(t, coins[..n], minted[..n]);
      var before := UpsertEach(t, coins[..n], minted[..n]).value;
      RefreshedSnoc(t, coins, minted, before, UpsertEach(t, coins, minted).value);
      if Injective(before) {
        InjectiveStep(before, coins[n], minted[n]);
      }
    }
  }

  lemma InjectiveStep(t: Table, c: Coin, minted: Uuid)
    requires Injective(t) && UpsertOne(t, c, minted).Some?
    ensures Injective(UpsertOne(t, c, minted).value)
  {
    var u := UpsertOne(t, c, minted).value;
    forall d, e | d in u && e in u && u[d].id == u[e].id
      ensures d == e
    {
      if c.externalId !in t {
        assert d in t ==> t[d].id != minted;
        assert e in t ==> t[e].id != minted;
      } else {
        assert t[d].id == u[d].id && t[e].id == u[e].id;
      }
    }
  }

  /** What one successful upsert does, for any batch and any proposed UUIDs. */
  lemma UpsertRefreshes(t: Table, coins: seq<Coin>, minted: seq<Uuid>)
    requires |minted| == |coins| && Upsert(t, coins, minted).Some?
    ensures Refreshed(t, coins, minted, Upsert(t, coins, minted).value)
    ensures Injective(t) ==> Injective(Upsert(t, coins, minted).value)
  {
    UpsertEachRefreshes(t, coins, minted);
  }

  /** One of the first n coins is new and is to get that UUID. */
  predicate Proposed(t: Table, coins: seq<Coin>, minted: seq<Uuid>, n: nat, id: Uuid)
    requires |minted| == |coins| && n <= |coins|
  {
    exists j :: 0 <= j < n && coins[j].externalId !in t && minted[j] == id
  }

  /** Coin i is known already, or its proposed UUID clashes with nothing before it. */
  predicate Usable(t: Table, coins: seq<Coin>, minted: seq<Uuid>, i: nat)
    requires |minted| == |coins| && i < |coins|
  {
    coins[i].externalId in t || (!IdTaken(t, minted[i]) && !Proposed(t, coins, minted, i, minted[i]))
  }

  /** Proposed UUIDs of new coins are unused and differ from each other; those of known coins do not matter. */
  ghost predicate NewIdsUsable(t: Table, coins: seq<Coin>, minted: seq<Uuid>)
    requires |minted| == |coins|
  {
    forall i :: 0 <= i < |coins| ==> Usable(t, coins, minted, i)
  }

  lemma ProposedInFront(t: Table, coins: seq<Coin>, minted: seq<Uuid>, n: nat, i: nat, id: Uuid)
    requires |minted| == |coins| && i <= n <= |coins|
    ensures Proposed(t, coins[..n], minted[..n], i, id) <==> Proposed(t, coins, minted, i, id)
  {
    assert forall j :: 0 <= j < i ==> coins[..n][j] == coins[j] && minted[..n][j] == minted[j];
  }

  lemma UsableInFront(t: Table, coins: seq<Coin>, minted: seq<Uuid>, n: nat)
    requires |minted| == |coins| && n <= |coins|
    ensures forall i :: 0 <= i < n ==> (Usable(t, coins[..n], minted[..n], i) <==> Usable(t, coins, minted, i))
  {
    forall i | 0 <= i < n
      ensures Usable(t, coins[..n], minted[..n], i) <==> Usable(t, coins, minted, i)
    {
      ProposedInFront(t, coins, minted, n, i, minted[i]);
    }
  }

  lemma TakenAfter(t: Table, coins: seq<Coin>, minted: seq<Uuid>, id: Uuid)
    requires |minted| == |coins| && DistinctIds(coins) && UpsertEach(t, coins, minted).Some?
    ensures IdTaken(UpsertEach(t, coins, minted).value, id) <==>
      IdTaken(t, id) || Proposed(t, coins, minted, |coins|, id)
  {
    UpsertEachRefreshes(t, coins, minted);
    var after := UpsertEach(t, coins, minted).value;
    if IdTaken(after, id) {
      var e :| e in after && after[e].id == id;
      if e !in t {
        var c :| c in coins && c.externalId == e;
        var j :| 0 <= j < |coins| && coins[j] == c;
      }
    }
    forall e | e in t && t[e].id == id
      ensures IdTaken(after, id)
    {
      assert e in after && after[e].id == id;
    }
    forall j | 0 <= j < |coins| && coins[j].externalId !in t && minted[j] == id
      ensures IdTaken(after, id)
    {
      InBatch(coins, j);
      assert after[coins[j].externalId].id == id;
    }
  }

  lemma LastUpsertSucceedsIff(t: Table, coins: seq<Coin>, minted: seq<Uuid>)
    requires |minted| == |coins| > 0 && DistinctIds(coins)
    requires UpsertEach(t, coins[..|coins| - 1], minted[..|coins| - 1]).Some?
    ensures UpsertEach(t, coins, minted).Some? <==> Usable(t, coins, minted, |coins| - 1)
  {
    var n := |coins| - 1;
    var front, ids := coins[..n], minted[..n];
    var before := UpsertEach(t, front, ids).value;
    assert coins[n].externalId in before <==> coins[n].externalId in t by {
      UpsertEachRefreshes(t, front, ids);
      assert coins[n].externalId !in Batch(front);
    }
    assert IdTaken(before, minted[n]) <==> IdTaken(t, minted[n]) || Proposed(t, coins, minted, n, minted[n]) by {
      TakenAfter(t, front, ids, minted[n]);
      ProposedInFront(t, coins, minted, n, n, minted[n]);
    }
  }

  lemma {:induction false} UpsertEachSucceedsIff(t: Table, coins: seq<Coin>, minted: seq<Uuid>)
    requires |minted| == |coins| && DistinctIds(coins)
    ensures UpsertEach(t, coins, minted).Some? <==> NewIdsUsable(t, coins, minted)
  {
    if coins != [] {
      var n := |coins| - 1;
      UpsertEachSucceedsIff(t, coins[..n], minted[..n]);
      UsableInFront(t, coins, minted, n);
      assert NewIdsUsable(t, coins, minted)
        <==> NewIdsUsable(t, coins[..n], minted[..n]) && Usable(t, coins, minted, n);
      if UpsertEach(t, coins[..n], minted[..n]).Some? {
        LastUpsertSucceedsIff(t, coins, minted);
      }
    }
  }

  /** The statement goes through exactly when no coin comes twice, all values fit, and new coins get usable UUIDs. */
  lemma UpsertSucceedsIff(t: Table, coins: seq<Coin>, minted: seq<Uuid>)
    requires |minted| == |coins|
    ensures Upsert(t, coins, minted).Some? <==>
      && (forall i, j :: 0 <= i < j < |coins| ==> coins[i].externalId != coins[j].externalId)
      && (forall i :: 0 <= i < |coins| ==>
           |coins[i].externalId| <= 100 && |coins[i].market.name| <= 100 && |coins[i].market.symbol| <= 20)
      && (forall i :: 0 <= i < |coins| && coins[i].market.imageUrl.Some? ==> |coins[i].market.imageUrl.value| <= 500)
      && (forall i :: 0 <= i < |coins| && coins[i].market.marketCapRank.Some? ==>
           -2147483648 <= coins[i].market.marketCapRank.value <= 2147483647)
      && NewIdsUsable(t, coins, minted)
  {
    if DistinctIds(coins) {
      UpsertEachSucceedsIff(t, coins, minted);
    }
  }

  // -------------------------------------------------------------- whole runs

  datatype Statement = Statement(coins: seq<Coin>, minted: seq<Uuid>)

  /** The table after a run of upserts, those that fail leaving it alone. */
  function AfterAll(t: Table, run: seq<Statement>): Table
    requires forall s :: s in run ==> |s.minted| == |s.coins|
  {
    if run == [] then t
    else
      var before := AfterAll(t, run[..|run| - 1]);
      var s := run[|run| - 1];
      assert s in run;
      var after := Upsert(before, s.coins, s.minted);
      if after.Some? then after.value else before
  }

  /** Over any run of upserts a coin keeps its UUID for good and no two coins ever share one. */
  lemma {:induction false} IdentityIsStable(t: Table, run: seq<Statement>)
    requires Injective(t) && forall s :: s in run ==> |s.minted| == |s.coins|
    ensures Injective(AfterAll(t, run))
    ensures t.Keys <= AfterAll(t, run).Keys
    ensures forall e :: e in t ==> AfterAll(t, run)[e].id == t[e].id
    ensures forall e :: e in t && (forall s :: s in run ==> e !in Batch(s.coins)) ==> AfterAll(t, run)[e] == t[e]
  {
    if run != [] {
      var n := |run| - 1;
      var before, s := AfterAll(t, run[..n]), run[n];
      IdentityIsStable(t, run[..n]);
      assert s in run && forall r :: r in run[..n] ==> r in run;
      if Upsert(before, s.coins, s.minted).Some? {
        UpsertRefreshes(before, s.coins, s.minted);
      }
    }
  }
}
