/**
 * The ranked snapshot table `top_story` and `TopStoriesService.insertStories`
 * (api/src/services/top-stories.service.ts, src/services/top-stories.service.ts): the rows
 * of one category are deleted, then the category's current ranking is inserted with
 * `order` equal to the position in the list.
 *
 * The table's keys: `hn_id` is the primary key, and `(type, order)` is unique.
 */
module TopStories {
  import opened Wrappers

  /** The `type` column (`top_story_type_enum`), also the category a story list is asked for. */
  datatype StorySortType = Top | New | Best | Ask | Show | Job

  datatype TopStoryRow = TopStoryRow(sortType: StorySortType, hnId: int, order: int)

  /** Both key constraints of the table hold. */
  predicate TableValid(rows: seq<TopStoryRow>) {
    (forall i, j :: 0 <= i < j < |rows| ==> rows[i].hnId != rows[j].hnId)
    && (forall i, j :: 0 <= i < j < |rows| ==>
          rows[i].sortType != rows[j].sortType || rows[i].order != rows[j].order)
  }

  /** The rows of category `t`, in table order. */
  function RowsOf(rows: seq<TopStoryRow>, t: StorySortType): (r: seq<TopStoryRow>)
    ensures forall x :: x in r <==> x in rows && x.sortType == t
  {
    if rows == [] then []
    else (if rows[0].sortType == t then [rows[0]] else []) + RowsOf(rows[1..], t)
  }

  /** The table after `DELETE ... WHERE type = t`. */
  function Without(rows: seq<TopStoryRow>, t: StorySortType): (r: seq<TopStoryRow>)
    ensures forall x :: x in r <==> x in rows && x.sortType != t
    ensures |r| <= |rows|
  {
    if rows == [] then []
    else (if rows[0].sortType != t then [rows[0]] else []) + Without(rows[1..], t)
  }

  /** The rows inserted for the ranking `items`: one per id, `order` its position. */
  function Ranked(t: StorySortType, items: seq<int>): (r: seq<TopStoryRow>)
    ensures |r| == |items|
    ensures forall i :: 0 <= i < |r| ==> r[i].sortType == t && r[i].hnId == items[i] && r[i].order == i
  {
    seq(|items|, i requires 0 <= i < |items| => TopStoryRow(t, items[i], i))
  }

  /**
   * `insertStories` on a table: the delete always takes effect; the insert succeeds
   * (`ok`) only if the resulting table satisfies its keys, and otherwise fails as a whole.
   */
  function ReplaceSnapshot(rows: seq<TopStoryRow>, t: StorySortType, items: seq<int>): (seq<TopStoryRow>, bool) {
    var kept := Without(rows, t);
    if TableValid(kept + Ranked(t, items)) then (kept + Ranked(t, items), true) else (kept, false)
  }

  lemma {:induction false} WithoutIdempotent(rows: seq<TopStoryRow>, t: StorySortType)
    ensures Without(Without(rows, t), t) == Without(rows, t)
  {
    if rows != [] {
      WithoutIdempotent(rows[1..], t);
      var w := Without(rows[1..], t);
      if rows[0].sortType != t {
        assert Without(rows, t) == [rows[0]] + w;
        assert ([rows[0]] + w)[0] == rows[0];
        assert ([rows[0]] + w)[1..] == w;
      } else {
        assert Without(rows, t) == w;
      }
    }
  }

  lemma {:induction false} AllOfTypeGone(rows: seq<TopStoryRow>, t: StorySortType)
    requires forall i :: 0 <= i < |rows| ==> rows[i].sortType == t
    ensures Without(rows, t) == []
  {
    if rows != [] {
      AllOfTypeGone(rows[1..], t);
    }
  }

  lemma WithoutRanked(t: StorySortType, items: seq<int>)
    ensures Without(Ranked(t, items), t) == []
  {
    AllOfTypeGone(Ranked(t, items), t);
  }

  lemma {:induction false} WithoutAppend(a: seq<TopStoryRow>, b: seq<TopStoryRow>, t: StorySortType)
    ensures Without(a + b, t) == Without(a, t) + Without(b, t)
  {
    if a == [] {
      assert a + b == b;
    } else {
      assert (a + b)[0] == a[0];
      assert (a + b)[1..] == a[1..] + b;
      WithoutAppend(a[1..], b, t);
    }
  }

  lemma {:induction false} RowsOfAppend(a: seq<TopStoryRow>, b: seq<TopStoryRow>, t: StorySortType)
    ensures RowsOf(a + b, t) == RowsOf(a, t) + RowsOf(b, t)
  {
    if a == [] {
      assert a + b == b;
    } else {
      assert (a + b)[0] == a[0];
      assert (a + b)[1..] == a[1..] + b;
      RowsOfAppend(a[1..], b, t);
    }
  }

  lemma RowsOfWithout(rows: seq<TopStoryRow>, t: StorySortType)
    ensures RowsOf(Without(rows, t), t) == []
  {
    NoneOfType(Without(rows, t), t);
  }

  lemma {:induction false} NoneOfType(rows: seq<TopStoryRow>, t: StorySortType)
    requires forall i :: 0 <= i < |rows| ==> rows[i].sortType != t
    ensures RowsOf(rows, t) == []
  {
    if rows != [] {
      NoneOfType(rows[1..], t);
    }
  }

  lemma {:induction false} RowsOfAll(rows: seq<TopStoryRow>, t: StorySortType)
    requires forall i :: 0 <= i < |rows| ==> rows[i].sortType == t
    ensures RowsOf(rows, t) == rows
  {
    if rows != [] {
      RowsOfAll(rows[1..], t);
    }
  }

  /**
   * After a successful call the category holds exactly the ranking, in order, with
   * `order` running 0..n-1.
   */
  lemma SnapshotOfCategory(rows: seq<TopStoryRow>, t: StorySortType, items: seq<int>)
    requires ReplaceSnapshot(rows, t, items).1
    ensures RowsOf(ReplaceSnapshot(rows, t, items).0, t) == Ranked(t, items)
  {
    RowsOfAppend(Without(rows, t), Ranked(t, items), t);
    RowsOfWithout(rows, t);
    RowsOfAll(Ranked(t, items), t);
  }

  /** Rows of every other category are untouched, whether or not the insert succeeds. */
  lemma OtherCategoriesUntouched(rows: seq<TopStoryRow>, t: StorySortType, items: seq<int>)
    ensures Without(ReplaceSnapshot(rows, t, items).0, t) == Without(rows, t)
  {
    WithoutIdempotent(rows, t);
    WithoutAppend(Without(rows, t), Ranked(t, items), t);
    WithoutRanked(t, items);
    assert Without(rows, t) + [] == Without(rows, t);
  }

  /** Repeating the call with the same ranking gives the same table and the same outcome. */
  lemma ReplaceIdempotent(rows: seq<TopStoryRow>, t: StorySortType, items: seq<int>)
    ensures ReplaceSnapshot(ReplaceSnapshot(rows, t, items).0, t, items) == ReplaceSnapshot(rows, t, items)
  {
    OtherCategoriesUntouched(rows, t, items);
    WithoutIdempotent(rows, t);
  }

  lemma {:induction false} WithoutValid(rows: seq<TopStoryRow>, t: StorySortType)
    requires TableValid(rows)
    ensures TableValid(Without(rows, t))
    decreases |rows|
  {
    if rows != [] {
      var w := Without(rows[1..], t);
      WithoutValid(rows[1..], t);
      if rows[0].sortType != t {
        assert Without(rows, t) == [rows[0]] + w;
        forall j | 0 <= j < |w|
          ensures rows[0].hnId != w[j].hnId
          ensures rows[0].sortType != w[j].sortType || rows[0].order != w[j].order
        {
          assert w[j] in rows[1..];
          var k :| 0 <= k < |rows[1..]| && rows[1..][k] == w[j];
          assert rows[k + 1] == w[j];
        }
        ConsValid(rows[0], w);
      } else {
        assert Without(rows, t) == w;
      }
    }
  }

  /** A row that clashes with none of a valid table's rows can head it. */
  lemma ConsValid(h: TopStoryRow, w: seq<TopStoryRow>)
    requires TableValid(w)
    requires forall j :: 0 <= j < |w| ==> h.hnId != w[j].hnId && (h.sortType != w[j].sortType || h.order != w[j].order)
    ensures TableValid([h] + w)
  {
    var all := [h] + w;
    forall i, j | 0 <= i < j < |all|
      ensures all[i].hnId != all[j].hnId
      ensures all[i].sortType != all[j].sortType || all[i].order != all[j].order
    {
      assert all[j] == w[j - 1];
      if i > 0 {
        assert all[i] == w[i - 1];
      }
    }
  }

  /**
   * The insert succeeds exactly when the ranking repeats no id and ranks no story that
   * another category still holds (`hn_id` is the whole primary key).
   */
  lemma ReplaceSucceedsIff(rows: seq<TopStoryRow>, t: StorySortType, items: seq<int>)
    requires TableValid(rows)
    ensures ReplaceSnapshot(rows, t, items).1 <==>
      NoDup(items) && forall x :: x in Without(rows, t) ==> x.hnId !in items
  {
    WithoutValid(rows, t);
    var kept := Without(rows, t);
    if NoDup(items) && forall x :: x in kept ==> x.hnId !in items {
      DisjointAppendValid(kept, t, items);
    }
    if TableValid(kept + Ranked(t, items)) {
      ValidAppendDisjoint(kept, t, items);
    }
  }

  /** A valid table without category `t` stays valid once a fresh ranking of `t` is appended. */
  lemma DisjointAppendValid(kept: seq<TopStoryRow>, t: StorySortType, items: seq<int>)
    requires TableValid(kept) && forall x :: x in kept ==> x.sortType != t
    requires NoDup(items) && forall x :: x in kept ==> x.hnId !in items
    ensures TableValid(kept + Ranked(t, items))
  {
    var all := kept + Ranked(t, items);
    forall i, j | 0 <= i < j < |all|
      ensures all[i].hnId != all[j].hnId
      ensures all[i].sortType != all[j].sortType || all[i].order != all[j].order
    {
      if j < |kept| {
      } else if i < |kept| {
        assert all[i] in kept;
        assert all[j].hnId == items[j - |kept|];
        assert all[j].sortType == t;
      } else {
        assert all[i].order == i - |kept|;
        assert all[j].order == j - |kept|;
      }
    }
  }

  /** A valid table with a ranking appended repeats no id of the ranking and none of the rest. */
  lemma ValidAppendDisjoint(kept: seq<TopStoryRow>, t: StorySortType, items: seq<int>)
    requires TableValid(kept + Ranked(t, items))
    ensures NoDup(items) && forall x :: x in kept ==> x.hnId !in items
  {
    var all := kept + Ranked(t, items);
    forall i, j | 0 <= i < j < |items|
      ensures items[i] != items[j]
    {
      assert all[|kept| + i].hnId == items[i];
      assert all[|kept| + j].hnId == items[j];
    }
    forall k, m | 0 <= k < |kept| && 0 <= m < |items|
      ensures kept[k].hnId != items[m]
    {
      assert all[k] == kept[k];
      assert all[|kept| + m].hnId == items[m];
    }
  }


  /** The table, as a store. */
  class TopStoryTable {
    var rows: seq<TopStoryRow>

    ghost predicate Valid()
      reads this
    {
      TableValid(rows)
    }

    constructor ()
      ensures Valid() && rows == []
    {
      rows := [];
    }

    /**
     * `insertStories(type, items)`. `ok` is false when the insert statement is refused by
     * a key; the call then throws, with the delete already applied.
     */
    method InsertStories(t: StorySortType, items: seq<int>) returns (ok: bool)
      requires Valid()
      modifies this
      ensures Valid()
      ensures (rows, ok) == ReplaceSnapshot(old(rows), t, items)
    {
      WithoutValid(rows, t);
      rows := Without(rows, t);
      var ranked := Ranked(t, items);
      ok := TableValid(rows + ranked);
      if ok {
        rows := rows + ranked;
      }
    }
  }
}
