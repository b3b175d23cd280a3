/**
 * The `fetch_schedule` table and the three operations of `ItemFetchService` that use it
 * (api/src/services/item-fetch.service.ts, src/services/item-fetch.service.ts): one row per
 * crawl of a category, created when the crawl starts and finished when it ends. A partial
 * unique index allows at most one unfinished row per category.
 *
 * Times are whole minutes; the clock reading `now` is a parameter.
 */
module FetchSchedule {
  import opened Wrappers
  import opened Editions

  /** The `type` column (`fetch_schedule_type_enum`). */
  datatype ScheduleType = Top | New | Best | Ask | Show | Job | Updates

  datatype ScheduleRow = ScheduleRow(
    id: int,
    scheduleType: ScheduleType,
    totalItems: Option<int>,
    createdAt: int,
    finishedAt: Option<int>)

  /** Some row of category `t` is still unfinished. */
  predicate HasUnfinished(rows: seq<ScheduleRow>, t: ScheduleType) {
    exists i :: 0 <= i < |rows| && rows[i].scheduleType == t && rows[i].finishedAt.None?
  }

  /**
   * Identity ids increase along the table and stay below the next value of the identity
   * sequence, and the partial unique index holds: two unfinished rows never share a type.
   */
  predicate TableValid(rows: seq<ScheduleRow>, nextId: int) {
    (forall i :: 0 <= i < |rows| ==> rows[i].id < nextId)
    && (forall i, j :: 0 <= i < j < |rows| ==> rows[i].id < rows[j].id)
    && (forall i, j :: 0 <= i < j < |rows| && rows[i].finishedAt.None? && rows[j].finishedAt.None?
          ==> rows[i].scheduleType != rows[j].scheduleType)
  }

  /**
   * The insert with `ON CONFLICT DO NOTHING`: a new unfinished row created at `now`, unless
   * it would violate the partial unique index. The identity value is drawn in both cases.
   */
  function InsertRows(rows: seq<ScheduleRow>, nextId: int, t: ScheduleType, now: int): (r: (seq<ScheduleRow>, int))
    ensures r.1 == nextId + 1
    ensures HasUnfinished(rows, t) ==> r.0 == rows
    ensures !HasUnfinished(rows, t) ==> r.0 == rows + [ScheduleRow(nextId, t, None, now, None)]
  {
    if HasUnfinished(rows, t) then (rows, nextId + 1)
    else (rows + [ScheduleRow(nextId, t, None, now, None)], nextId + 1)
  }

  /** The update that stamps `totalItems` and `finishedAt` on the unfinished rows of `t`. */
  function FinishRows(rows: seq<ScheduleRow>, t: ScheduleType, totalItems: int, now: int): (r: seq<ScheduleRow>)
    ensures |r| == |rows|
    ensures !HasUnfinished(r, t)
    ensures forall i :: 0 <= i < |rows| ==>
      r[i].id == rows[i].id && r[i].scheduleType == rows[i].scheduleType && r[i].createdAt == rows[i].createdAt
    ensures forall i :: 0 <= i < |rows| && (rows[i].scheduleType != t || rows[i].finishedAt.Some?) ==> r[i] == rows[i]
    ensures forall i :: 0 <= i < |rows| && rows[i].scheduleType == t && rows[i].finishedAt.None? ==>
      r[i].totalItems == Some(totalItems) && r[i].finishedAt == Some(now)
  {
    seq(|rows|, i requires 0 <= i < |rows| =>
      if rows[i].scheduleType == t && rows[i].finishedAt.None?
      then rows[i].(totalItems := Some(totalItems), finishedAt := Some(now))
      else rows[i])
  }

  lemma InsertRowsValid(rows: seq<ScheduleRow>, nextId: int, t: ScheduleType, now: int)
    requires TableValid(rows, nextId)
    ensures TableValid(InsertRows(rows, nextId, t, now).0, InsertRows(rows, nextId, t, now).1)
    ensures HasUnfinished(InsertRows(rows, nextId, t, now).0, t)
  {
    var r := InsertRows(rows, nextId, t, now).0;
    if !HasUnfinished(rows, t) {
      assert r[|rows|].scheduleType == t;
    }
  }

  lemma FinishRowsValid(rows: seq<ScheduleRow>, nextId: int, t: ScheduleType, totalItems: int, now: int)
    requires TableValid(rows, nextId)
    ensures TableValid(FinishRows(rows, t, totalItems, now), nextId)
  {
  }

  /** At most one row is stamped by a finish, because of the partial unique index. */
  lemma FinishTouchesAtMostOne(rows: seq<ScheduleRow>, nextId: int, t: ScheduleType, totalItems: int, now: int, i: int, j: int)
    requires TableValid(rows, nextId)
    requires 0 <= i < |rows| && 0 <= j < |rows|
    requires FinishRows(rows, t, totalItems, now)[i] != rows[i]
    requires FinishRows(rows, t, totalItems, now)[j] != rows[j]
    ensures i == j
  {
  }

  /**
   * The row the query `WHERE type = t ORDER BY created_at DESC LIMIT 1` reads: a row of `t`
   * with the greatest creation time (among equal times, the later row of the table).
   */
  function Latest(rows: seq<ScheduleRow>, t: ScheduleType): (r: Option<ScheduleRow>)
    ensures r.None? <==> forall i :: 0 <= i < |rows| ==> rows[i].scheduleType != t
    ensures r.Some? ==> r.value in rows && r.value.scheduleType == t
    ensures r.Some? ==> forall i :: 0 <= i < |rows| && rows[i].scheduleType == t ==> rows[i].createdAt <= r.value.createdAt
  {
    if rows == [] then None
    else
      var p := Latest(rows[..|rows| - 1], t);
      var x := rows[|rows| - 1];
      assert forall i :: 0 <= i < |rows| - 1 ==> rows[..|rows| - 1][i] == rows[i];
      if x.scheduleType != t then p
      else if p.None? || p.value.createdAt <= x.createdAt then Some(x)
      else p
  }

  /** The wait before the next crawl may start: one interval after a finished crawl, two after an unfinished one. */
  function Grace(e: Edition, row: ScheduleRow): (r: int)
    ensures r > 0
    ensures row.finishedAt.None? ==> r == 2 * FetchIntervalMinutes(e)
    ensures row.finishedAt.Some? ==> r == FetchIntervalMinutes(e)
  {
    if row.finishedAt.None? then FetchIntervalMinutes(e) * 2 else FetchIntervalMinutes(e)
  }

  function Max(a: int, b: int): int {
    if a < b then b else a
  }

  /**
   * `getTimeUntilNextFetch`: never negative; zero exactly when there is no row of the
   * category or the grace period of the latest row has run out; otherwise the wait ends
   * exactly when that grace period does.
   */
  function TimeUntilNextFetch(e: Edition, rows: seq<ScheduleRow>, t: ScheduleType, now: int): (r: int)
    ensures r >= 0
    ensures Latest(rows, t).None? ==> r == 0
    ensures Latest(rows, t).Some? ==>
      var row := Latest(rows, t).value;
      (r == 0 <==> now >= row.createdAt + Grace(e, row))
      && (r > 0 ==> now + r == row.createdAt + Grace(e, row))
  {
    match Latest(rows, t)
    case None => 0
    case Some(row) =>
      var diff := now - row.createdAt;
      if row.finishedAt.None? then Max(0, FetchIntervalMinutes(e) * 2 - diff)
      else Max(0, FetchIntervalMinutes(e) - diff)
  }

  /** A wait never exceeds twice the interval, so the crawler never sleeps longer than that. */
  lemma WaitBounded(e: Edition, rows: seq<ScheduleRow>, t: ScheduleType, now: int)
    requires forall i :: 0 <= i < |rows| ==> rows[i].createdAt <= now
    ensures TimeUntilNextFetch(e, rows, t, now) <= 2 * FetchIntervalMinutes(e)
  {
  }

  /**
   * Right after a crawl of a category starts (and no other crawl of it was pending), that
   * category waits the full unfinished grace: 60 minutes in the api edition, 30 in src.
   */
  lemma FreshUnfinishedWait(e: Edition, rows: seq<ScheduleRow>, nextId: int, t: ScheduleType, now: int)
    requires forall i :: 0 <= i < |rows| ==> rows[i].createdAt < now
    ensures TimeUntilNextFetch(e, InsertRows(rows, nextId, t, now).0, t, now) ==
      if HasUnfinished(rows, t) then TimeUntilNextFetch(e, rows, t, now)
      else if e == Api then 60 else 30
  {
    var r := InsertRows(rows, nextId, t, now).0;
    if !HasUnfinished(rows, t) {
      var l := Latest(r, t).value;
      assert r[|rows|].scheduleType == t;
      assert l.createdAt == now;
      assert l.finishedAt.None?;
    }
  }

  /** The table, as a store the fetch service reads and writes. */
  class FetchScheduleTable {
    var rows: seq<ScheduleRow>
    var nextId: int

    ghost predicate Valid()
      reads this
    {
      TableValid(rows, nextId)
    }

    constructor ()
      ensures Valid() && rows == []
    {
      rows := [];
      nextId := 1;
    }

    /** `insertFetchSchedule`: reports whether a row was added. */
    method Insert(t: ScheduleType, now: int) returns (inserted: bool)
      requires Valid()
      modifies this
      ensures Valid()
      ensures inserted <==> !HasUnfinished(old(rows), t)
      ensures (rows, nextId) == InsertRows(old(rows), old(nextId), t, now)
      ensures HasUnfinished(rows, t)
    {
      InsertRowsValid(rows, nextId, t, now);
      inserted := !HasUnfinished(rows, t);
      rows, nextId := InsertRows(rows, nextId, t, now).0, InsertRows(rows, nextId, t, now).1;
    }

    /** `finishFetchSchedule`. */
    method Finish(t: ScheduleType, totalItems: int, now: int)
      requires Valid()
      modifies this
      ensures Valid()
      ensures rows == FinishRows(old(rows), t, totalItems, now) && nextId == old(nextId)
    {
      FinishRowsValid(rows, nextId, t, totalItems, now);
      rows := FinishRows(rows, t, totalItems, now);
    }
  }
}
