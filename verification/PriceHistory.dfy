/**
 The price_history table: append a snapshot, purge what is older than 90 days, and
 answer for the last so many days in ascending order. Purging must never show.
 Instants are milliseconds.
 */
module PriceHistory {

  datatype Snapshot = Snapshot(externalId: string, price: real, recordedAt: int)

  /** timedelta(days=n) */
  function Days(n: int): int {
    n * 86_400_000
  }

  /** What a purge leaves of the first n rows. */
  function PurgedUpTo(rows: seq<Snapshot>, n: nat, cutoff: int): seq<Snapshot>
    requires n <= |rows|
  {
    if n == 0 then []
    else PurgedUpTo(rows, n - 1, cutoff) + if rows[n - 1].recordedAt < cutoff then [] else [rows[n - 1]]
  }

  /** DELETE WHERE recorded_at < cutoff leaves the rest in place. */
  function Purged(rows: seq<Snapshot>, cutoff: int): seq<Snapshot> {
    PurgedUpTo(rows, |rows|, cutoff)
  }

  lemma {:induction false} PurgedPrefix(rows: seq<Snapshot>, last: Snapshot, n: nat, cutoff: int)
    requires n <= |rows|
    ensures PurgedUpTo(rows + [last], n, cutoff) == PurgedUpTo(rows, n, cutoff)
  {
    if n > 0 {
      PurgedPrefix(rows, last, n - 1, cutoff);
    }
  }

  lemma PurgedSnoc(rows: seq<Snapshot>, last: Snapshot, cutoff: int)
    ensures Purged(rows + [last], cutoff) == Purged(rows, cutoff) + if last.recordedAt < cutoff then [] else [last]
  {
    PurgedPrefix(rows, last, |rows|, cutoff);
  }

  function Copies(rows: seq<Snapshot>, row: Snapshot): nat {
    multiset(rows)[row]
  }

  /** One more row, kept or not: a filter that has counted right so far goes on counting right. */
  lemma OneMoreRow(front: seq<Snapshot>, kept: seq<Snapshot>, last: Snapshot, keep: bool, counts: bool, row: Snapshot)
    requires Copies(kept, row) == if counts then Copies(front, row) else 0
    requires last == row ==> keep == counts
    ensures Copies(kept + if keep then [last] else [], row) == if counts then Copies(front + [last], row) else 0
  {
    assert kept + [] == kept;
  }

  /** The purge takes every row from before the cutoff, and no other. */
  lemma {:induction false} PurgedRows(rows: seq<Snapshot>, cutoff: int, row: Snapshot)
    ensures multiset(Purged(rows, cutoff))[row] == if row.recordedAt < cutoff then 0 else multiset(rows)[row]
  {
    if rows != [] {
      var front, last := rows[..|rows| - 1], rows[|rows| - 1];
      PurgedRows(front, cutoff, row);
      OneMoreRow(front, Purged(front, cutoff), last, last.recordedAt >= cutoff, row.recordedAt >= cutoff, row);
      assert rows == front + [last];
      PurgedSnoc(front, last, cutoff);
    }
  }

  lemma PurgedMembers(rows: seq<Snapshot>, cutoff: int, row: Snapshot)
    ensures row in Purged(rows, cutoff) <==> row in rows && row.recordedAt >= cutoff
  {
    PurgedRows(rows, cutoff, row);
    assert row in Purged(rows, cutoff) <==> row in multiset(Purged(rows, cutoff));
    assert row in rows <==> row in multiset(rows);
  }

  /** WHERE external_id = ? AND recorded_at >= since. */
  function Selected(rows: seq<Snapshot>, externalId: string, since: int): seq<Snapshot> {
    if rows == [] then []
    else
      var last := rows[|rows| - 1];
      Selected(rows[..|rows| - 1], externalId, since)
        + if last.externalId == externalId && last.recordedAt >= since then [last] else []
  }

  predicate Ascending(rows: seq<Snapshot>) {
    forall i, j :: 0 <= i < j < |rows| ==> rows[i].recordedAt <= rows[j].recordedAt
  }

  /** What the query may return: the selected rows, each as often as stored, in ascending order; ties are free. */
  ghost predicate Answers(result: seq<Snapshot>, rows: seq<Snapshot>, externalId: string, since: int) {
    Ascending(result) && multiset(result) == multiset(Selected(rows, externalId, since))
  }

  function Inserted(rows: seq<Snapshot>, row: Snapshot): (r: seq<Snapshot>)
    requires Ascending(rows)
    ensures Ascending(r) && multiset(r) == multiset(rows) + multiset{row}
  {
    if rows == [] || rows[|rows| - 1].recordedAt <= row.recordedAt then rows + [row]
    else
      var front, last := rows[..|rows| - 1], rows[|rows| - 1];
      assert rows == front + [last];
      InsertedBefore(front, last, row, Inserted(front, row));
      Inserted(front, row) + [last]
  }

  lemma InsertedBefore(front: seq<Snapshot>, last: Snapshot, row: Snapshot, inserted: seq<Snapshot>)
    requires Ascending(front + [last]) && row.recordedAt < last.recordedAt
    requires Ascending(inserted) && multiset(inserted) == multiset(front) + multiset{row}
    ensures Ascending(inserted + [last])
    ensures multiset(inserted + [last]) == multiset(front + [last]) + multiset{row}
  {
    var rows := front + [last];
    forall i | 0 <= i < |inserted|
      ensures inserted[i].recordedAt <= last.recordedAt
    {
      assert inserted[i] in multiset(inserted);
      if inserted[i] != row {
        assert inserted[i] in multiset(front);
        var j :| 0 <= j < |front| && front[j] == inserted[i];
        assert rows[j] == front[j] && rows[|front|] == last;
      }
    }
  }

  function Sorted(rows: seq<Snapshot>): (r: seq<Snapshot>)
    ensures Ascending(r) && multiset(r) == multiset(rows)
  {
    if rows == [] then []
    else
      assert rows == rows[..|rows| - 1] + [rows[|rows| - 1]];
      Inserted(Sorted(rows[..|rows| - 1]), rows[|rows| - 1])
  }

  /** Of a row the query selects every copy if it is the coin's and recent enough, and none otherwise. */
  lemma {:induction false} SelectedRows(rows: seq<Snapshot>, externalId: string, since: int, row: Snapshot)
    ensures Copies(Selected(rows, externalId, since), row)
      == if row.externalId == externalId && row.recordedAt >= since then Copies(rows, row) else 0
  {
    if rows != [] {
      SelectedRows(rows[..|rows| - 1], externalId, since, row);
      var front, last := rows[..|rows| - 1], rows[|rows| - 1];
      assert rows == front + [last];
      OneMoreRow(front, Selected(front, externalId, since), last,
        last.externalId == externalId && last.recordedAt >= since,
        row.externalId == externalId && row.recordedAt >= since, row);
    }
  }

  /** get_history: the coin's rows of the last so many days, oldest first. */
  function GetHistory(rows: seq<Snapshot>, externalId: string, now: int, days: int): (r: seq<Snapshot>)
    ensures Answers(r, rows, externalId, now - Days(days))
    ensures Ascending(r)
    ensures forall row ::
      multiset(r)[row] ==
        if row.externalId == externalId && row.recordedAt >= now - days * 86_400_000 then multiset(rows)[row] else 0
  {
    var selected := Selected(rows, externalId, now - Days(days));
    assert forall row ::
      multiset(selected)[row] ==
        if row.externalId == externalId && row.recordedAt >= now - days * 86_400_000 then multiset(rows)[row] else 0
    by {
      forall row {
        SelectedRows(rows, externalId, now - Days(days), row);
      }
    }
    Sorted(selected)
  }

  // -------------------------------------------------------------- whole runs

  datatype Op = Append(row: Snapshot) | Purge(at: int)

  function Applied(rows: seq<Snapshot>, op: Op, keepDays: int): seq<Snapshot> {
    match op
    case Append(row) => rows + [row]
    case Purge(at) => Purged(rows, at - Days(keepDays))
  }

  /** The table after a run that purges rows older than keepDays. */
  function Table(run: seq<Op>, keepDays: int): seq<Snapshot> {
    if run == [] then [] else Applied(Table(run[..|run| - 1], keepDays), run[|run| - 1], keepDays)
  }

  /** The same run on a table that nobody purges. */
  function Log(run: seq<Op>): seq<Snapshot> {
    if run == [] then []
    else
      var before := Log(run[..|run| - 1]);
      match run[|run| - 1]
      case Append(row) => before + [row]
      case Purge(_) => before
  }

  /** No purge of the run is later than that instant: the clock does not run backwards. */
  predicate PurgedBy(run: seq<Op>, now: int) {
    forall op :: op in run && op.Purge? ==> op.at <= now
  }

  lemma {:induction false} PurgeIsInvisible(rows: seq<Snapshot>, cutoff: int, externalId: string, since: int)
    requires cutoff <= since
    ensures Selected(Purged(rows, cutoff), externalId, since) == Selected(rows, externalId, since)
  {
    if rows != [] {
      var front, last := rows[..|rows| - 1], rows[|rows| - 1];
      PurgeIsInvisible(front, cutoff, externalId, since);
      assert rows == front + [last];
      PurgedSnoc(front, last, cutoff);
      SelectedSnoc(front, last, externalId, since);
      if last.recordedAt >= cutoff {
        SelectedSnoc(Purged(front, cutoff), last, externalId, since);
      } else {
        assert Purged(rows, cutoff) == Purged(front, cutoff);
      }
    }
  }

  lemma OpSelectsAlike(table: seq<Snapshot>, log: seq<Snapshot>, op: Op, keepDays: int, externalId: string, since: int)
    requires Selected(table, externalId, since) == Selected(log, externalId, since)
    requires op.Purge? ==> op.at - Days(keepDays) <= since
    ensures Selected(Applied(table, op, keepDays), externalId, since)
      == Selected(if op.Append? then log + [op.row] else log, externalId, since)
  {
    match op {
      case Append(row) =>
        SelectedSnoc(table, row, externalId, since);
        SelectedSnoc(log, row, externalId, since);
      case Purge(at) =>
        PurgeIsInvisible(table, at - Days(keepDays), externalId, since);
    }
  }

  lemma {:induction false} TableSelectsAsLog(run: seq<Op>, keepDays: int, externalId: string, now: int, since: int)
    requires PurgedBy(run, now) && now - Days(keepDays) <= since
    ensures Selected(Table(run, keepDays), externalId, since) == Selected(Log(run), externalId, since)
  {
    if run != [] {
      var before, op := run[..|run| - 1], run[|run| - 1];
      assert op in run;
      TableSelectsAsLog(before, keepDays, externalId, now, since);
      OpSelectsAlike(Table(before, keepDays), Log(before), op, keepDays, externalId, since);
    }
  }

  lemma SelectedSnoc(rows: seq<Snapshot>, row: Snapshot, externalId: string, since: int)
    ensures Selected(rows + [row], externalId, since)
      == Selected(rows, externalId, since)
        + if row.externalId == externalId && row.recordedAt >= since then [row] else []
  {
    assert (rows + [row])[..|rows|] == rows;
  }

  /** One question about d days, asked of the purged table and of the log, has the same answers. */
  ghost predicate SameAnswer(run: seq<Op>, keepDays: int, externalId: string, now: int, d: int, result: seq<Snapshot>) {
    var since := now - Days(d);
    Answers(result, Table(run, keepDays), externalId, since) <==> Answers(result, Log(run), externalId, since)
  }

  /** Every question about d days, after every run, is answered as if nothing had ever been purged. */
  ghost predicate Transparent(keepDays: int, d: int) {
    forall run: seq<Op>, externalId: string, now: int, result: seq<Snapshot> :: PurgedBy(run, now) ==>
      SameAnswer(run, keepDays, externalId, now, d, result)
  }

  lemma ShortRun(row: Snapshot, at: int, keepDays: int)
    requires row.recordedAt < at - Days(keepDays)
    ensures Log([Append(row), Purge(at)]) == [row] && Table([Append(row), Purge(at)], keepDays) == []
  {
    var run := [Append(row), Purge(at)];
    assert run[..1] == [Append(row)] && [Append(row)][..0] == [];
    assert Log([Append(row)]) == [row] && Table([Append(row)], keepDays) == [row];
    assert PurgedUpTo([row], 0, at - Days(keepDays)) == [];
    assert Purged([row], at - Days(keepDays)) == [];
  }

  /** A row old enough to be purged and recent enough to be asked for. */
  lemma PurgeShows(keepDays: int, d: int)
    requires d > keepDays
    ensures !Transparent(keepDays, d)
  {
    var row := Snapshot("bitcoin", 1.0, -Days(d));
    var run := [Append(row), Purge(0)];
    ShortRun(row, 0, keepDays);
    SelectedSnoc([], row, "bitcoin", 0 - Days(d));
    assert [] + [row] == [row];
    assert PurgedBy(run, 0);
    assert !SameAnswer(run, keepDays, "bitcoin", 0, d, [row]);
  }

  lemma PurgeDoesNotShow(keepDays: int, d: int)
    requires d <= keepDays
    ensures Transparent(keepDays, d)
  {
    forall run: seq<Op>, externalId: string, now: int, result: seq<Snapshot> | PurgedBy(run, now)
      ensures SameAnswer(run, keepDays, externalId, now, d, result)
    {
      TableSelectsAsLog(run, keepDays, externalId, now, now - Days(d));
    }
  }

  /** Purging is transparent to a question exactly when the question reaches back no further than the purge. */
  lemma PurgeTransparencyIff(keepDays: int, d: int)
    ensures Transparent(keepDays, d) <==> d <= keepDays
  {
    if d <= keepDays {
      PurgeDoesNotShow(keepDays, d);
    } else {
      PurgeShows(keepDays, d);
    }
  }
}
