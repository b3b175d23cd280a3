/**
 * The `comment` table and `CommentService` (api/src/services/comment.service.ts,
 * src/services/comment.service.ts): the keyed upsert the persister writes through, the
 * sort map of the comment view, the loop that nests the rows of the recursive query and
 * sorts the roots, and the row mapping of the search view.
 */
module CommentService {
  import opened Wrappers
  import opened Editions
  import opened KeyedTable
  import opened CommentTree
  import opened Ordering

  // ---------------------------------------------------------------------------------------
  // Upsert

  /**
   * The columns of a `comment` row other than the identity and `hn_id`; also what one row
   * of the upsert's `VALUES` list supplies. `parentId` and `storyId` are internal ids.
   */
  datatype CommentColumns = CommentColumns(
    text: Option<string>,
    parentId: Option<int>,
    storyId: Option<int>,
    userId: Option<int>,
    order: int,
    createdAt: int,
    deletedAt: Option<int>)

  type CommentTable = Table<CommentColumns>
  type CommentInsert = Insert<CommentColumns>

  /** A new row stores the inserted columns as they are. */
  function NewComment(c: CommentColumns): CommentColumns {
    c
  }

  /**
   * The `ON CONFLICT (hn_id)` update of an existing row: the api edition sets `text`,
   * `createdAt` and `deletedAt` only; the src edition merges every inserted column.
   */
  function OnConflict(e: Edition, s: CommentColumns, ins: CommentColumns): CommentColumns {
    match e
    case Api => s.(text := ins.text, createdAt := ins.createdAt, deletedAt := ins.deletedAt)
    case Src => ins
  }

  function Conflict(e: Edition): (CommentColumns, CommentColumns) -> CommentColumns {
    (s, ins) => OnConflict(e, s, ins)
  }

  /**
   * In the api edition a re-inserted comment keeps its parent, story, author and position;
   * in the src edition it takes every inserted column.
   */
  lemma ConflictKeepsPlacement(e: Edition, s: CommentColumns, ins: CommentColumns)
    ensures e == Api ==> OnConflict(e, s, ins) == ins.(parentId := s.parentId, storyId := s.storyId,
                                                       userId := s.userId, order := s.order)
    ensures e == Src ==> OnConflict(e, s, ins) == ins
  {
  }

  /** After `upsertComments`, each listed comment holds what its conflict rule says. */
  lemma UpsertCommentsContent(e: Edition, tb: CommentTable, rows: seq<CommentInsert>, i: int)
    requires DistinctKeys(rows) && 0 <= i < |rows|
    ensures var after := UpsertAll(tb, rows, NewComment, Conflict(e)).0;
      rows[i].hnId in after.rows
      && after.rows[rows[i].hnId].data == match Get(tb.rows, rows[i].hnId)
         case None => rows[i].cols
         case Some(prior) => OnConflict(e, prior.data, rows[i].cols)
  {
    UpsertAllContent(tb, rows, NewComment, Conflict(e), i);
  }

  /** `upsertComments` over the same list twice leaves the rows as running it once. */
  lemma {:induction false} UpsertCommentsIdempotent(e: Edition, tb: CommentTable, rows: seq<CommentInsert>)
    requires DistinctKeys(rows)
    ensures var once := UpsertAll(tb, rows, NewComment, Conflict(e)).0;
      UpsertAll(once, rows, NewComment, Conflict(e)).0.rows == once.rows
  {
    forall b: Option<Stored<CommentColumns>>, c: CommentColumns
      ensures Conflict(e)(Merge(b, c, NewComment, Conflict(e)), c) == Merge(b, c, NewComment, Conflict(e))
    {
    }
    UpsertAllIdempotent(tb, rows, NewComment, Conflict(e));
  }

  /** The comment table as the store the persister writes through. */
  class CommentStore {
    var table: CommentTable

    ghost predicate Valid()
      reads this
    {
      KeyedTable.TableValid(table)
    }

    constructor ()
      ensures Valid() && table.rows == map[]
    {
      table := Table(map[], 1);
    }

    /** `upsertComments`: one statement over `rows`, returning a key per row. */
    method UpsertComments(e: Edition, rows: seq<CommentInsert>) returns (keys: seq<Key>)
      requires Valid()
      modifies this
      ensures Valid()
      ensures (table, keys) == UpsertAll(old(table), rows, NewComment, Conflict(e))
    {
      UpsertAllValid(table, rows, NewComment, Conflict(e));
      var r := UpsertAll(table, rows, NewComment, Conflict(e));
      table, keys := r.0, r.1;
    }
  }

  // ---------------------------------------------------------------------------------------
  // Sort orders of the comment view (api edition)

  datatype CommentsSortOrder = Default | Newest | Oldest | TopUserKarma | LowUserKarma | MostReplies | LeastReplies

  datatype SortColumn = OrderColumn | CreatedAt | Karma

  datatype Direction = Asc | Desc

  /** The column and direction the query sorts by after `depth`. */
  function SortSpec(o: CommentsSortOrder): (SortColumn, Direction) {
    match o
    case Default => (OrderColumn, Asc)
    case Newest => (CreatedAt, Desc)
    case Oldest => (CreatedAt, Asc)
    case TopUserKarma => (Karma, Desc)
    case LowUserKarma => (Karma, Asc)
    case MostReplies => (OrderColumn, Desc)
    case LeastReplies => (OrderColumn, Asc)
  }

  /** The sort column of a row, negated when the direction is descending. */
  function SortKey(o: CommentsSortOrder, c: CommentRow): int {
    var v := match SortSpec(o).0
      case OrderColumn => c.order
      case CreatedAt => c.createdAt
      case Karma => c.karma;
    if SortSpec(o).1 == Asc then v else -v
  }

  /** `a` may come before `b` at one depth: by the sort column, then by `order`. */
  predicate RowBefore(o: CommentsSortOrder, a: CommentRow, b: CommentRow) {
    SortKey(o, a) < SortKey(o, b) || (SortKey(o, a) == SortKey(o, b) && a.order <= b.order)
  }

  /** `ORDER BY "depth" DESC, <column> <direction>, "order"`. */
  predicate SqlOrdered(o: CommentsSortOrder, rows: seq<CommentRow>) {
    forall i, j :: 0 <= i < j < |rows| ==>
      rows[i].depth > rows[j].depth || (rows[i].depth == rows[j].depth && RowBefore(o, rows[i], rows[j]))
  }

  /** What each sort order asks of two comments at the same depth. */
  lemma SortOrderMeaning(a: CommentRow, b: CommentRow)
    ensures RowBefore(Default, a, b) <==> a.order <= b.order
    ensures RowBefore(Newest, a, b) <==> a.createdAt > b.createdAt || (a.createdAt == b.createdAt && a.order <= b.order)
    ensures RowBefore(Oldest, a, b) <==> a.createdAt < b.createdAt || (a.createdAt == b.createdAt && a.order <= b.order)
    ensures RowBefore(TopUserKarma, a, b) <==> a.karma > b.karma || (a.karma == b.karma && a.order <= b.order)
    ensures RowBefore(LowUserKarma, a, b) <==> a.karma < b.karma || (a.karma == b.karma && a.order <= b.order)
    ensures RowBefore(MostReplies, a, b) <==> a.order >= b.order
    ensures RowBefore(LeastReplies, a, b) <==> a.order <= b.order
  {
  }

  /** The query's order is deepest first, so the api loop can nest its rows. */
  lemma QueryNestable(o: CommentsSortOrder, start: Option<int>, rows: seq<CommentRow>)
    requires FromRecursiveQuery(Api, start, rows) && SqlOrdered(o, rows)
    ensures Nestable(Api, start, rows)
  {
    assert DeepestFirst(rows);
    DeepestFirstNestable(start, rows);
  }

  /** The replies to each comment come in the requested order. */
  lemma KidsInRequestedOrder(o: CommentsSortOrder, start: Option<int>, rows: seq<CommentRow>, p: nat)
    requires FromRecursiveQuery(Api, start, rows) && SqlOrdered(o, rows) && p < |rows|
    ensures Nestable(Api, start, rows)
    ensures forall a, b :: 0 <= a < b < |Children(Api, start, rows, p)| ==>
      RowBefore(o, rows[Children(Api, start, rows, p)[a]], rows[Children(Api, start, rows, p)[b]])
  {
    QueryNestable(o, start, rows);
    var ch := Children(Api, start, rows, p);
    forall a, b | 0 <= a < b < |ch|
      ensures RowBefore(o, rows[ch[a]], rows[ch[b]])
    {
      assert ch[a] in ch && ch[b] in ch;
      SiblingDepth(start, rows, ch[a], p);
      SiblingDepth(start, rows, ch[b], p);
      assert rows[ch[a]].depth == rows[ch[b]].depth;
    }
  }

  /** A child is one level below its parent. */
  lemma SiblingDepth(start: Option<int>, rows: seq<CommentRow>, c: nat, p: nat)
    requires FromRecursiveQuery(Api, start, rows) && Nestable(Api, start, rows)
    requires IsChildOf(Api, start, rows, c, p)
    ensures rows[c].depth == rows[p].depth + 1
  {
    var i := JoinedParent(Api, start, rows, c);
    ChildOfParent(Api, start, rows, c, p);
  }

  // ---------------------------------------------------------------------------------------
  // The comment view

  function MostKey(c: FormattedComment): int {
    -c.descendants
  }

  function LeastKey(c: FormattedComment): int {
    c.descendants
  }

  /** Whether the roots are re-sorted by their reply counts (api edition only). */
  predicate SortsRoots(e: Edition, o: CommentsSortOrder) {
    e == Api && (o == MostReplies || o == LeastReplies)
  }

  /**
   * The final, stable `sort` of the roots: most replies first, least replies first, or,
   * for every other order, the order the rows came in.
   */
  function RootOrder(e: Edition, o: CommentsSortOrder, f: seq<FormattedComment>): (r: seq<FormattedComment>)
    ensures multiset(r) == multiset(f)
    ensures SortsRoots(e, o) && o == MostReplies ==>
      forall i, j :: 0 <= i < j < |r| ==> r[i].descendants >= r[j].descendants
    ensures SortsRoots(e, o) && o == LeastReplies ==>
      forall i, j :: 0 <= i < j < |r| ==> r[i].descendants <= r[j].descendants
    ensures !SortsRoots(e, o) ==> r == f
  {
    if SortsRoots(e, o) then
      var r := SortBy(f, if o == MostReplies then MostKey else LeastKey);
      assert SortedBy(r, if o == MostReplies then MostKey else LeastKey);
      r
    else f
  }

  /** The comments with `d` replies, in their order in `s`. */
  function WithReplies(s: seq<FormattedComment>, d: int): seq<FormattedComment> {
    WithKey(s, LeastKey, d)
  }

  lemma {:induction false} MostKeyGroups(s: seq<FormattedComment>, d: int)
    ensures WithKey(s, MostKey, -d) == WithReplies(s, d)
  {
    if s != [] {
      MostKeyGroups(s[1..], d);
    }
  }

  /** The sort is stable: roots with the same number of replies keep their row order. */
  lemma RootOrderStable(e: Edition, o: CommentsSortOrder, f: seq<FormattedComment>, d: int)
    ensures WithReplies(RootOrder(e, o, f), d) == WithReplies(f, d)
  {
    if SortsRoots(e, o) {
      if o == MostReplies {
        SortByStable(f, MostKey, -d);
        MostKeyGroups(f, d);
        MostKeyGroups(SortBy(f, MostKey), d);
      } else {
        SortByStable(f, LeastKey, d);
      }
    }
  }

  /** `getCommentsByStoryId` after the query: the forest of its rows, roots sorted as asked. */
  function GetComments(e: Edition, o: CommentsSortOrder, start: Option<int>, rows: seq<CommentRow>): seq<FormattedComment>
    requires Nestable(e, start, rows)
  {
    RootOrder(e, o, Forest(e, start, rows))
  }

  /** Every row of the query appears in the response exactly once, and nothing else does. */
  lemma GetCommentsEachRowOnce(e: Edition, o: CommentsSortOrder, start: Option<int>, rows: seq<CommentRow>)
    requires Nestable(e, start, rows) && DistinctHnIds(rows)
    ensures multiset(Flatten(GetComments(e, o, start, rows))) == multiset(HnIds(rows))
  {
    EachRowOnce(e, start, rows);
    FlattenPermutation(GetComments(e, o, start, rows), Forest(e, start, rows));
  }

  /**
   * Each returned thread counts its replies: every comment beneath it in the api edition,
   * its direct replies in the src edition.
   */
  lemma ReturnedDescendants(e: Edition, o: CommentsSortOrder, start: Option<int>, rows: seq<CommentRow>, i: int)
    requires Nestable(e, start, rows) && 0 <= i < |GetComments(e, o, start, rows)|
    ensures var t := GetComments(e, o, start, rows)[i];
      t.descendants == if e == Api then CountNodes(t.kids) else |t.kids|
  {
    var r := GetComments(e, o, start, rows);
    var f := Forest(e, start, rows);
    var roots := Roots(e, start, rows);
    assert r[i] in multiset(f);
    var j :| 0 <= j < |f| && f[j] == r[i];
    if e == Api {
      DescendantsCountBelow(start, rows, roots[j]);
    }
  }

  /**
   * `getCommentsByStoryId` from the query result on: the nesting loop, the formatted
   * roots in push order, then the optional sort.
   */
  method GetCommentsByStoryId(e: Edition, o: CommentsSortOrder, start: Option<int>, rows: seq<CommentRow>)
    returns (r: seq<FormattedComment>)
    requires Nestable(e, start, rows)
    ensures r == GetComments(e, o, start, rows)
  {
    var roots, kids, desc := Nest(e, start, rows);
    var nested := seq(|roots|, i requires 0 <= i < |roots| => Readout(e, start, rows, kids, desc, roots[i]));
    assert nested == Forest(e, start, rows);
    if SortsRoots(e, o) {
      nested := SortBy(nested, if o == MostReplies then MostKey else LeastKey);
    }
    r := nested;
  }

  /**
   * `getCommentsByStoryId` as the route calls it: the query result in the query's order.
   * The src edition sorts `parent_order, depth, order`, starts from the story's top-level
   * comments and takes no sort order.
   */
  lemma QueryResultNestable(e: Edition, o: CommentsSortOrder, start: Option<int>, rows: seq<CommentRow>)
    requires FromRecursiveQuery(e, start, rows)
    requires e == Api ==> SqlOrdered(o, rows)
    requires e == Src ==> start == None && TreeByTree(rows)
    ensures Nestable(e, start, rows)
  {
    if e == Api {
      QueryNestable(o, start, rows);
    } else {
      TreeByTreeNestable(rows);
    }
  }

  // ---------------------------------------------------------------------------------------
  // The search view

  /** One row of the search query. */
  datatype SearchRow = SearchRow(text: Option<string>, createdAt: int, hnId: int, karma: int, username: string)

  /** `searchCommentsByStoryId`'s mapping: every match as a comment without replies. */
  function SearchResults(rows: seq<SearchRow>): (r: seq<FormattedComment>)
    ensures |r| == |rows|
    ensures forall i :: 0 <= i < |rows| ==> r[i].id == rows[i].hnId && r[i].kids == [] && r[i].descendants == 0
  {
    seq(|rows|, i requires 0 <= i < |rows| =>
      FormattedComment(rows[i].hnId, rows[i].text, rows[i].username, rows[i].createdAt, rows[i].karma, 0, []))
  }

  /** The search view is flat: it lists exactly the matched ids, in query order, with no replies. */
  lemma {:induction false} SearchResultsFlat(rows: seq<SearchRow>)
    ensures Flatten(SearchResults(rows)) == seq(|rows|, i requires 0 <= i < |rows| => rows[i].hnId)
    ensures CountNodes(SearchResults(rows)) == |rows|
  {
    if rows != [] {
      var init := rows[..|rows| - 1];
      SearchResultsFlat(init);
      assert SearchResults(rows)[..|rows| - 1] == SearchResults(init);
    }
  }
}
