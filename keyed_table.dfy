/**
 * A table with an identity primary key and a unique external key, and the
 * `INSERT ... ON CONFLICT (hn_id) DO UPDATE ... RETURNING id, hn_id` statement both the
 * story and the comment services issue against theirs. The columns a conflict rewrites
 * differ per table and edition, so they are a parameter, `conflict`.
 *
 * Rows of one statement are applied one after another in list order.
 */
module KeyedTable {
  import opened Wrappers

  /** A stored row: its identity value and its other columns. */
  datatype Stored<V> = Stored(id: int, data: V)

  /**
   * The rows by external key, and the next value of the identity sequence. The identity
   * column is `GENERATED ALWAYS AS IDENTITY`: every proposed row of an insert draws a value
   * from the sequence, whether it is stored or runs into a conflict.
   */
  datatype Table<V> = Table(rows: map<int, Stored<V>>, nextId: int)

  /** What `RETURNING id, hn_id` yields for one row. */
  datatype Key = Key(id: int, hnId: int)

  /** One row of the `VALUES` list: its external key and the columns it inserts. */
  datatype Insert<I> = Insert(hnId: int, cols: I)

  /** Identity values are distinct and already drawn from the sequence. */
  ghost predicate TableValid<V>(tb: Table<V>) {
    (forall h :: h in tb.rows ==> tb.rows[h].id < tb.nextId)
    && (forall h1, h2 :: h1 in tb.rows && h2 in tb.rows && h1 != h2 ==> tb.rows[h1].id != tb.rows[h2].id)
  }

  /**
   * One row of the statement: the conflict update of the stored row, or a new row. Either
   * way the row draws the next identity value; only a new row keeps it.
   */
  function UpsertOne<V, I>(tb: Table<V>, ins: Insert<I>, create: I -> V, conflict: (V, I) -> V): (r: (Table<V>, Key))
    ensures r.1.hnId == ins.hnId && ins.hnId in r.0.rows && r.1.id == r.0.rows[ins.hnId].id
    ensures r.0.rows.Keys == tb.rows.Keys + {ins.hnId}
    ensures forall h :: h in tb.rows ==> r.0.rows[h].id == tb.rows[h].id
    ensures forall h :: h in tb.rows && h != ins.hnId ==> r.0.rows[h] == tb.rows[h]
    ensures r.0.nextId == tb.nextId + 1
    ensures ins.hnId !in tb.rows ==> r.1.id == tb.nextId
  {
    if ins.hnId in tb.rows then
      var s := tb.rows[ins.hnId];
      (Table(tb.rows[ins.hnId := Stored(s.id, conflict(s.data, ins.cols))], tb.nextId + 1), Key(s.id, ins.hnId))
    else
      (Table(tb.rows[ins.hnId := Stored(tb.nextId, create(ins.cols))], tb.nextId + 1), Key(tb.nextId, ins.hnId))
  }

  /** A key of the insert list. */
  predicate Listed<I>(rows: seq<Insert<I>>, h: int) {
    exists i :: 0 <= i < |rows| && rows[i].hnId == h
  }

  /** The table after the statement and the returned keys, one per input row. */
  function UpsertAll<V, I>(tb: Table<V>, rows: seq<Insert<I>>, create: I -> V, conflict: (V, I) -> V): (r: (Table<V>, seq<Key>))
    ensures |r.1| == |rows|
    decreases |rows|
  {
    if rows == [] then (tb, [])
    else
      var p := UpsertAll(tb, rows[..|rows| - 1], create, conflict);
      var q := UpsertOne(p.0, rows[|rows| - 1], create, conflict);
      (q.0, p.1 + [q.1])
  }

  /**
   * Each returned key names its row's identity in the final table; the stored keys grow by
   * exactly the listed ones; existing rows keep their identity; unlisted rows are untouched;
   * the identity sequence advances once per row.
   */
  lemma {:induction false} UpsertAllFacts<V, I>(tb: Table<V>, rows: seq<Insert<I>>, create: I -> V, conflict: (V, I) -> V)
    ensures var r := UpsertAll(tb, rows, create, conflict);
      (forall i :: 0 <= i < |rows| ==>
        r.1[i].hnId == rows[i].hnId && rows[i].hnId in r.0.rows && r.1[i].id == r.0.rows[rows[i].hnId].id)
      && (forall h :: h in r.0.rows <==> h in tb.rows || Listed(rows, h))
      && (forall h :: h in tb.rows ==> r.0.rows[h].id == tb.rows[h].id)
      && (forall h :: h in tb.rows && !Listed(rows, h) ==> r.0.rows[h] == tb.rows[h])
      && r.0.nextId == tb.nextId + |rows|
    decreases |rows|
  {
    if rows != [] {
      var init := rows[..|rows| - 1];
      var last := rows[|rows| - 1];
      UpsertAllFacts(tb, init, create, conflict);
      var p := UpsertAll(tb, init, create, conflict);
      var q := UpsertOne(p.0, last, create, conflict);
      assert forall i :: 0 <= i < |init| ==> init[i] == rows[i];
      assert forall h :: Listed(rows, h) <==> Listed(init, h) || h == last.hnId;
      forall i | 0 <= i < |rows|
        ensures (p.1 + [q.1])[i].hnId == rows[i].hnId && rows[i].hnId in q.0.rows
        ensures (p.1 + [q.1])[i].id == q.0.rows[rows[i].hnId].id
      {
        if i < |init| {
          assert (p.1 + [q.1])[i] == p.1[i];
        }
      }
    }
  }

  lemma UpsertOneValid<V, I>(tb: Table<V>, ins: Insert<I>, create: I -> V, conflict: (V, I) -> V)
    requires TableValid(tb)
    ensures TableValid(UpsertOne(tb, ins, create, conflict).0)
  {
    var r := UpsertOne(tb, ins, create, conflict).0;
    if ins.hnId !in tb.rows {
      assert r.rows[ins.hnId].id == tb.nextId;
    }
  }

  lemma {:induction false} UpsertAllValid<V, I>(tb: Table<V>, rows: seq<Insert<I>>, create: I -> V, conflict: (V, I) -> V)
    requires TableValid(tb)
    ensures TableValid(UpsertAll(tb, rows, create, conflict).0)
    decreases |rows|
  {
    if rows != [] {
      UpsertAllValid(tb, rows[..|rows| - 1], create, conflict);
      UpsertOneValid(UpsertAll(tb, rows[..|rows| - 1], create, conflict).0, rows[|rows| - 1], create, conflict);
    }
  }

  /**
   * Upserting a list in consecutive batches, one statement after another, is the same as
   * upserting it in one statement.
   */
  lemma {:induction false} UpsertAllAppend<V, I>(tb: Table<V>, a: seq<Insert<I>>, b: seq<Insert<I>>, create: I -> V, conflict: (V, I) -> V)
    ensures UpsertAll(tb, a + b, create, conflict).0 == UpsertAll(UpsertAll(tb, a, create, conflict).0, b, create, conflict).0
    ensures UpsertAll(tb, a + b, create, conflict).1 ==
      UpsertAll(tb, a, create, conflict).1 + UpsertAll(UpsertAll(tb, a, create, conflict).0, b, create, conflict).1
    decreases |b|
  {
    if b == [] {
      assert a + b == a;
    } else {
      assert (a + b)[..|a + b| - 1] == a + b[..|b| - 1];
      assert (a + b)[|a + b| - 1] == b[|b| - 1];
      UpsertAllAppend(tb, a, b[..|b| - 1], create, conflict);
    }
  }

  /** The columns an insert leaves, given what was stored under its key before the statement. */
  function Merge<V, I>(before: Option<Stored<V>>, cols: I, create: I -> V, conflict: (V, I) -> V): V {
    match before
    case None => create(cols)
    case Some(s) => conflict(s.data, cols)
  }

  /** The keys of the list are pairwise distinct (a statement may not touch a row twice). */
  predicate DistinctKeys<I>(rows: seq<Insert<I>>) {
    forall j, k :: 0 <= j < k < |rows| ==> rows[j].hnId != rows[k].hnId
  }

  /**
   * With distinct keys, each row ends up as its insert applied to what was stored before
   * the statement, and an existing row keeps its identity.
   */
  lemma {:induction false} UpsertAllContent<V, I>(tb: Table<V>, rows: seq<Insert<I>>, create: I -> V, conflict: (V, I) -> V, i: int)
    requires DistinctKeys(rows)
    requires 0 <= i < |rows|
    ensures rows[i].hnId in UpsertAll(tb, rows, create, conflict).0.rows
    ensures UpsertAll(tb, rows, create, conflict).0.rows[rows[i].hnId].data ==
      Merge(Get(tb.rows, rows[i].hnId), rows[i].cols, create, conflict)
    decreases |rows|
  {
    UpsertAllFacts(tb, rows, create, conflict);
    var init := rows[..|rows| - 1];
    var last := rows[|rows| - 1];
    var p := UpsertAll(tb, init, create, conflict);
    UpsertAllFacts(tb, init, create, conflict);
    if i == |rows| - 1 {
      assert !Listed(init, last.hnId);
      assert Get(p.0.rows, last.hnId) == Get(tb.rows, last.hnId);
    } else {
      assert init[i] == rows[i];
      UpsertAllContent(tb, init, create, conflict, i);
    }
  }

  /**
   * When every key is already stored, the statement adds no row and changes no identity,
   * although the identity sequence still advances once per row.
   */
  lemma {:induction false} NoNewRows<V, I>(tb: Table<V>, rows: seq<Insert<I>>, create: I -> V, conflict: (V, I) -> V)
    requires forall i :: 0 <= i < |rows| ==> rows[i].hnId in tb.rows
    ensures var r := UpsertAll(tb, rows, create, conflict).0;
      r.rows.Keys == tb.rows.Keys
      && (forall h :: h in tb.rows ==> r.rows[h].id == tb.rows[h].id)
      && r.nextId == tb.nextId + |rows|
  {
    var r := UpsertAll(tb, rows, create, conflict).0;
    UpsertAllFacts(tb, rows, create, conflict);
    forall h | h in r.rows ensures h in tb.rows {
      if Listed(rows, h) {
        var i :| 0 <= i < |rows| && rows[i].hnId == h;
      }
    }
    assert forall h :: h in tb.rows ==> h in r.rows;
    assert r.rows.Keys == tb.rows.Keys;
  }

  /**
   * Running the same statement twice leaves the rows as running it once, provided that
   * reapplying a row's columns to their own result changes nothing; the second run only
   * advances the identity sequence, once per row.
   */
  lemma UpsertAllIdempotent<V, I>(tb: Table<V>, rows: seq<Insert<I>>, create: I -> V, conflict: (V, I) -> V)
    requires DistinctKeys(rows)
    requires forall b: Option<Stored<V>>, c: I :: conflict(Merge(b, c, create, conflict), c) == Merge(b, c, create, conflict)
    ensures var once := UpsertAll(tb, rows, create, conflict).0;
      var twice := UpsertAll(once, rows, create, conflict).0;
      twice.rows == once.rows && twice.nextId == once.nextId + |rows|
  {
    var once := UpsertAll(tb, rows, create, conflict).0;
    var twice := UpsertAll(once, rows, create, conflict).0;
    UpsertAllFacts(tb, rows, create, conflict);
    UpsertAllFacts(once, rows, create, conflict);
    forall h | h in twice.rows
      ensures twice.rows[h] == once.rows[h]
    {
      if Listed(rows, h) {
        var i :| 0 <= i < |rows| && rows[i].hnId == h;
        UpsertAllContent(tb, rows, create, conflict, i);
        UpsertAllContent(once, rows, create, conflict, i);
      }
    }
    forall h ensures h in twice.rows <==> h in once.rows {
      assert Listed(rows, h) ==> h in once.rows;
    }
    assert twice.rows.Keys == once.rows.Keys;
    assert twice.rows == once.rows;
  }
}
