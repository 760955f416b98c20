/**
 Where the events of CacheProtocol come from. What a worker's attempt and an on-demand
 refresh do to the tables and to Redis is, seen from one cache key, a run of the
 protocol's commit, write-through and invalidation events, in the code's order.
 */
module CacheEvents {
  import opened Wrappers
  import opened CacheKeys
  import opened CryptoTable
  import opened RefreshLog
  import opened WriteThrough
  import Redis
  import Database
  import RefreshWorker
  import OnDemandRefresh
  import P = CacheProtocol

  /** What the factory of a list or top-mover key would read of a table. */
  type Query = Table -> P.View

  /** The query makes as many SELECTs as configured, of rows that are not from the future. */
  ghost predicate Readable(c: P.Config, query: Query, table: Table, now: nat) {
    |query(table)| == c.selects && forall f :: f in query(table) ==> f.refreshedAt <= now
  }

  /** The key as the protocol sees it is the key in Redis. */
  predicate SameKey(s: P.System, store: Store, key: string) {
    && (s.entry.Some? <==> key in store)
    && (s.entry.Some? ==> s.entry.value.expiry == store[key].expiry)
  }

  predicate Current(s: P.System, view: P.View) {
    s.commits != [] && s.commits[P.Latest(s)].view == view
  }

  function InvalidateIf(done: bool): P.Run {
    if done then [P.Invalidate] else []
  }

  lemma InvalidationRuns(c: P.Config, s: P.System, done: bool)
    ensures P.Exec(c, s, InvalidateIf(done)) == Some(if done then s.(entry := None) else s)
  {
    P.ExecOne(c, s, P.Invalidate);
  }

  lemma WrittenByElsewhere(store: Store, raw: seq<RawCoin>, table: Table, now: int, at: int, commands: nat, key: string)
    requires forall i :: 0 <= i < |raw| ==> raw[i].id in table
    requires !Matches(DETAIL_PREFIX, key)
    ensures var after := WrittenBy(store, raw, table, now, at, commands);
      (key in after <==> key in store) && (key in store ==> after[key] == store[key])
  {
    if commands >= 2 * |raw| {
      WrittenElsewhere(store, raw, table, now, at, |raw|, key);
    } else {
      WrittenElsewhere(store, raw, table, now, at, commands / 2, key);
      PatternsSelectFamilies(Detail(table[raw[commands / 2].id].id));
    }
  }

  /** Whether a page's Redis commands get as far as the invalidation of that key's family. */
  predicate PageInvalidates(k: Key, n: nat, commands: nat) {
    (k.List? && commands >= 2 * n + 1) || (k.TopMovers? && commands >= 2 * n + 2)
  }

  lemma PublishedAtDerived(store: Store, raw: seq<RawCoin>, table: Table, now: int, at: int, commands: nat, k: Key)
    requires (k.List? || k.TopMovers?) && forall i :: 0 <= i < |raw| ==> raw[i].id in table
    ensures var after, key := Published(store, raw, table, now, at, commands), Render(k);
      && (key in after <==> key in store && !PageInvalidates(k, |raw|, commands))
      && (key in after ==> after[key] == store[key])
  {
    PatternsSelectFamilies(k);
    WrittenByElsewhere(store, raw, table, now, at, commands, Render(k));
  }

  /** A committed page, seen from a list or top-mover key: a commit, then an invalidation as far as Redis lasts. */
  lemma PageOnDerivedKey(
      c: P.Config, s: P.System, a: Attempt, coins: Table, store: Store, now: int, at: int, k: Key, query: Query)
    returns (run: P.Run, t: P.System)
    requires (k.List? || k.TopMovers?) && Injective(coins) && RefreshWorker.Commits(a, coins, now)
    requires SameKey(s, store, Render(k)) && Readable(c, query, RefreshWorker.CoinsAfterOne(a, coins, now), s.now)
    ensures var after := RefreshWorker.CoinsAfterOne(a, coins, now);
      && run == [P.CommitView(query(after), false)]
        + InvalidateIf(PageInvalidates(k, |a.answer.value|, a.redisCommands))
      && P.Exec(c, s, run) == Some(t) && Current(t, query(after))
      && RowsMatch(a.answer.value, after)
      && SameKey(t, Published(store, a.answer.value, after, now, at, a.redisCommands), Render(k))
  {
    var raw, after := a.answer.value, RefreshWorker.CoinsAfterOne(a, coins, now);
    var commit, done := P.CommitView(query(after), false), PageInvalidates(k, |a.answer.value|, a.redisCommands);
    RefreshWorker.CommittedRows(a, Database.Tables(coins, [], []), now);
    PublishedAtDerived(store, raw, after, now, at, a.redisCommands, k);
    P.ExecOne(c, s, commit);
    t := P.Apply(c, s, commit);
    InvalidationRuns(c, t, done);
    P.ExecThen(c, s, [commit], InvalidateIf(done));
    run := [commit] + InvalidateIf(done);
    t := if done then t.(entry := None) else t;
  }

  /** The content of a coin's dict, but for its two time fields. */
  type Encoding = (string, string, Market) -> string

  function DetailField(encode: Encoding, e: string, row: Row, now: nat): P.Field {
    P.Field(encode(row.id, e, row.market), now)
  }

  /** The entry in Redis says what the protocol's value says. */
  predicate SameDetail(encode: Encoding, v: P.Value, entry: Redis.Entry<Payload>) {
    && v.Data? && |v.parts| == 1 && entry.value.Coin?
    && v.parts[0].field.content == encode(entry.value.dict.id, entry.value.dict.externalId, entry.value.dict.market)
    && entry.value.dict.dataAgeSeconds == Some(v.parts[0].ageSeconds)
  }

  /**
   What the protocol's SELECT reads of a detail key is the row's dict, rendered then and there:
   same content, and the age in whole seconds.
   */
  lemma ReadIsCoinToDict(encode: Encoding, s: P.System, e: string, row: Row, refreshedAt: nat, expiry: int)
    requires Current(s, [DetailField(encode, e, row, refreshedAt)])
    requires row.lastRefreshedAt == Some(refreshedAt) && refreshedAt <= s.now
    ensures SameDetail(encode, P.Data([P.ReadPart(s, 0)], P.Reader),
      Redis.Entry(Payload.Coin(CoinToDict(e, row, s.now)), expiry))
  {
  }

  lemma WrittenByAtDetail(store: Store, raw: seq<RawCoin>, table: Table, now: int, at: int, commands: nat, i: nat)
    requires i < |raw| && DistinctRaw(raw) && Injective(table) && RowsMatch(raw, table)
    ensures HoldsIf(commands >= 2 * i + 1, store, WrittenBy(store, raw, table, now, at, commands),
      Render(Detail(table[raw[i].id].id)), EntryFor(raw[i], table[raw[i].id], now, at))
  {
    if commands >= 2 * |raw| {
      WrittenAtDetail(store, raw, table, now, at, |raw|, i);
    } else {
      WrittenAtDetail(store, raw, table, now, at, commands / 2, i);
      if commands / 2 != i {
        WritesElsewhere(raw, table, i, commands / 2);
      }
    }
  }

  lemma PublishedAtDetail(store: Store, raw: seq<RawCoin>, table: Table, now: int, at: int, commands: nat, i: nat)
    requires i < |raw| && DistinctRaw(raw) && Injective(table) && RowsMatch(raw, table)
    ensures HoldsIf(commands >= 2 * i + 1, store, Published(store, raw, table, now, at, commands),
      Render(Detail(table[raw[i].id].id)), EntryFor(raw[i], table[raw[i].id], now, at))
  {
    PatternsSelectFamilies(Detail(table[raw[i].id].id));
    WrittenByAtDetail(store, raw, table, now, at, commands, i);
  }

  /** What becomes of the value that a commit has made ready to be written through. */
  function Outlet(v: P.Value, written: bool): P.Event {
    if written then P.WriteThrough(v) else P.WriteThroughLost(v)
  }

  /**
   A committed page, seen from a detail key of a coin on it: a commit, after a while the
   write-through, unless Redis gives out first. RefreshWorker.CommittedRows says that what
   is asked of raw and table holds after every commit; `now` is the run's start.
   */
  lemma PageOnDetailKey(
      c: P.Config, s: P.System, raw: seq<RawCoin>, table: Table, store: Store, now: nat, i: nat,
      encode: Encoding, gap: nat, commands: nat) returns (run: P.Run, t: P.System)
    requires c.selects == 1 && c.pushTtl == CACHE_TTL_MS && now <= s.now
    requires gap <= c.maxWrite && s.now + gap <= now + c.maxRun && P.Timely(c, s.(now := s.now + gap))
    requires DistinctRaw(raw) && Injective(table) && RowsMatch(raw, table) && i < |raw|
    requires SameKey(s, store, Render(Detail(table[raw[i].id].id)))
    ensures run == DetailRun(s, DetailField(encode, raw[i].id, table[raw[i].id], now), gap, commands >= 2 * i + 1)
    ensures P.Exec(c, s, run) == Some(t) && Current(t, [DetailField(encode, raw[i].id, table[raw[i].id], now)])
    ensures ShowsDetail(t, Published(store, raw, table, now, s.now + gap, commands),
      Render(Detail(table[raw[i].id].id)), commands >= 2 * i + 1, encode)
  {
    var field := DetailField(encode, raw[i].id, table[raw[i].id], now);
    run, t := CommitStallStore(c, s, field, gap, commands >= 2 * i + 1, now);
    DetailShows(s, t, store, raw, table, now, s.now + gap, commands, i, encode, P.PushedValue(s, [field]));
  }

  /** The key agrees with Redis, in content too if it has just been written. */
  predicate ShowsDetail(t: P.System, store: Store, key: string, written: bool, encode: Encoding) {
    SameKey(t, store, key) && (written ==> t.entry.Some? && SameDetail(encode, t.entry.value.value, store[key]))
  }

  /** An entry that is written through exactly if Redis takes that coin's command shows what the page left in Redis. */
  lemma DetailShows(
      s: P.System, t: P.System, store: Store, raw: seq<RawCoin>, table: Table, now: nat, at: nat, commands: nat, i: nat,
      encode: Encoding, v: P.Value)
    requires i < |raw| && DistinctRaw(raw) && Injective(table) && RowsMatch(raw, table)
    requires v.Data? && |v.parts| == 1 && v.parts[0].ageSeconds == 0
    requires v.parts[0].field == DetailField(encode, raw[i].id, table[raw[i].id], now)
    requires SameKey(s, store, Render(Detail(table[raw[i].id].id)))
    requires t.entry == if commands >= 2 * i + 1 then Some(P.Entry(v, at + CACHE_TTL_MS)) else s.entry
    ensures ShowsDetail(t, Published(store, raw, table, now, at, commands),
      Render(Detail(table[raw[i].id].id)), commands >= 2 * i + 1, encode)
  {
    PublishedAtDetail(store, raw, table, now, at, commands, i);
  }

  /** A commit of one row, a stall, and the write-through of that row or its loss. */
  function DetailRun(s: P.System, field: P.Field, gap: nat, written: bool): P.Run {
    [P.CommitView([field], true)] + [P.Tick(gap)] + [Outlet(P.PushedValue(s, [field]), written)]
  }

  /** The row has been committed, a while ago in the second case, and not been written through. */
  function Unpushed(s: P.System, field: P.Field): P.System {
    s.(commits := s.commits + [P.Commit([field], s.now)], pending := s.pending + {P.PushedValue(s, [field])})
  }

  function Stalled(s: P.System, field: P.Field, gap: nat): P.System {
    Unpushed(s, field).(now := s.now + gap)
  }

  lemma StallIsTimely(c: P.Config, s: P.System, field: P.Field, gap: nat)
    requires gap <= c.maxWrite && s.now + gap <= field.refreshedAt + c.maxRun && P.Timely(c, s.(now := s.now + gap))
    ensures P.Timely(c, Stalled(s, field, gap))
  {
  }

  lemma CommitRuns(c: P.Config, s: P.System, field: P.Field)
    requires c.selects == 1 && field.refreshedAt <= s.now <= field.refreshedAt + c.maxRun
    ensures P.Exec(c, s, [P.CommitView([field], true)]) == Some(Unpushed(s, field))
  {
    P.ExecOne(c, s, P.CommitView([field], true));
  }

  lemma CommitAndStall(c: P.Config, s: P.System, field: P.Field, gap: nat) returns (run: P.Run)
    requires c.selects == 1 && field.refreshedAt <= s.now <= field.refreshedAt + c.maxRun
    requires P.Timely(c, Stalled(s, field, gap))
    ensures run == [P.CommitView([field], true)] + [P.Tick(gap)]
    ensures P.Exec(c, s, run) == Some(Stalled(s, field, gap))
  {
    run := [P.CommitView([field], true)];
    CommitRuns(c, s, field);
    TickLast(c, s, run, Unpushed(s, field), gap);
    run := run + [P.Tick(gap)];
  }

  lemma TickLast(c: P.Config, s0: P.System, run: P.Run, s: P.System, ms: nat)
    requires P.Exec(c, s0, run) == Some(s) && P.Timely(c, s.(now := s.now + ms))
    ensures P.Exec(c, s0, run + [P.Tick(ms)]) == Some(s.(now := s.now + ms))
  {
    P.ExecSnoc(c, s0, run, P.Tick(ms));
  }

  lemma CommitStallStore(c: P.Config, s: P.System, field: P.Field, gap: nat, written: bool, now: nat)
    returns (run: P.Run, t: P.System)
    requires c.selects == 1 && field.refreshedAt == now <= s.now
    requires gap <= c.maxWrite && s.now + gap <= now + c.maxRun && P.Timely(c, s.(now := s.now + gap))
    ensures run == DetailRun(s, field, gap, written) && P.Exec(c, s, run) == Some(t) && Current(t, [field])
    ensures t.entry == if written
      then Some(P.Entry(P.PushedValue(s, [field]), s.now + gap + c.pushTtl)) else s.entry
  {
    var outlet := Outlet(P.PushedValue(s, [field]), written);
    StallIsTimely(c, s, field, gap);
    run := CommitAndStall(c, s, field, gap);
    P.ExecSnoc(c, s, run, outlet);
    run := run + [outlet];
    t := P.Apply(c, Stalled(s, field, gap), outlet);
  }

  /** Whether an on-demand refresh gets as far as the invalidation of that key's family. */
  predicate RefreshInvalidates(k: Key, commands: nat) {
    (k.List? && commands >= 1) || (k.Detail? && commands >= 2) || (k.TopMovers? && commands >= 3)
  }

  function CommitIf(view: P.View, done: bool): P.Run {
    if done then [P.CommitView(view, false)] else []
  }

  /**
   An on-demand refresh whose upsert goes through, seen from one key: the invalidation first,
   then the commit, if either is reached.
   */
  lemma RefreshOnKey(
      c: P.Config, s: P.System, a: Attempt, coins: Table, refreshedAt: nat -> int, store: Store, k: Key, query: Query)
    returns (run: P.Run, t: P.System)
    requires (k.List? || k.Detail? || k.TopMovers?) && OnDemandRefresh.Upserted(a, coins, refreshedAt).Some?
    requires SameKey(s, store, Render(k)) && Current(s, query(coins))
    requires Readable(c, query, OnDemandRefresh.Upserted(a, coins, refreshedAt).value, s.now)
    ensures var upserted := OnDemandRefresh.Upserted(a, coins, refreshedAt).value;
      var completed := a.redisCommands >= OnDemandRefresh.INVALIDATIONS && a.commits;
      && run == InvalidateIf(RefreshInvalidates(k, a.redisCommands)) + CommitIf(query(upserted), completed)
      && P.Exec(c, s, run) == Some(t) && Current(t, query(if completed then upserted else coins))
      && SameKey(t, OnDemandRefresh.Cleared(store, a.redisCommands), Render(k))
  {
    var upserted := OnDemandRefresh.Upserted(a, coins, refreshedAt).value;
    var completed := a.redisCommands >= OnDemandRefresh.INVALIDATIONS && a.commits;
    var dropped := RefreshInvalidates(k, a.redisCommands);
    PatternsSelectFamilies(k);
    InvalidationRuns(c, s, dropped);
    t := if dropped then s.(entry := None) else s;
    var commit := CommitIf(query(upserted), completed);
    if completed {
      P.ExecOne(c, t, P.CommitView(query(upserted), false));
    }
    P.ExecThen(c, s, InvalidateIf(dropped), commit);
    run := InvalidateIf(dropped) + commit;
    t := P.Exec(c, t, commit).value;
  }
}
