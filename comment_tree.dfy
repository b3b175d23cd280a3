/**
 * The in-memory half of `getCommentsByStoryId` (api/src/services/comment.service.ts:80-107,
 * src/services/comment.service.ts:57-84): the flat rows of the recursive comment query
 * become a forest, through a map from row id to the row's `kids` list and `descendants`
 * counter.
 *
 * Rows are addressed by their index in the query result. The object graph the source
 * builds is the final state of those two maps; `Tree` reads it out as a value.
 */
module CommentTree {
  import opened Wrappers
  import opened Editions

  /** One row of the recursive query (`depth` and `parentOrder` only decide its position). */
  datatype CommentRow = CommentRow(
    id: int,
    hnId: int,
    text: Option<string>,
    parentId: Option<int>,
    username: string,
    karma: int,
    createdAt: int,
    order: int,
    depth: nat,
    parentOrder: int)

  /** One comment of the response (`author` is the `by` field). */
  datatype FormattedComment = FormattedComment(
    id: int,
    text: Option<string>,
    author: string,
    time: int,
    karma: int,
    descendants: int,
    kids: seq<FormattedComment>)

  /**
   * A row that starts a tree of the response: one without a parent or, in the api
   * edition, the comment the request asked for (`start`).
   */
  predicate IsRoot(e: Edition, start: Option<int>, c: CommentRow) {
    c.parentId.None? || (e == Api && start == Some(c.hnId))
  }

  /** The first row with that id. */
  function IndexOf(rows: seq<CommentRow>, id: int): (r: Option<nat>)
    ensures r.Some? ==> r.value < |rows| && rows[r.value].id == id
    ensures r.None? ==> forall i :: 0 <= i < |rows| ==> rows[i].id != id
  {
    if rows == [] then None
    else if rows[0].id == id then Some(0)
    else
      match IndexOf(rows[1..], id)
      case None => None
      case Some(i) => Some(i + 1)
  }

  /**
   * Where a parent row stands relative to its child in the query's `ORDER BY`: after it in
   * the api edition (`depth DESC`), before it in the src edition (`parent_order, depth`).
   */
  predicate Precedes(e: Edition, child: nat, parent: nat) {
    if e == Api then child < parent else parent < child
  }

  /** The id of row `i`; distinctness is stated on this term so that it fires only on demand. */
  function IdAt(rows: seq<CommentRow>, i: nat): int
    requires i < |rows|
  {
    rows[i].id
  }

  predicate DistinctIds(rows: seq<CommentRow>) {
    forall i, j :: 0 <= i < j < |rows| ==> IdAt(rows, i) != IdAt(rows, j)
  }

  /** Row `j` is a root, or it finds its parent among the rows on the side `Precedes` says. */
  predicate ParentPlaced(e: Edition, start: Option<int>, rows: seq<CommentRow>, j: int)
    requires 0 <= j < |rows|
  {
    !IsRoot(e, start, rows[j]) ==>
      IndexOf(rows, rows[j].parentId.value).Some? && Precedes(e, j, IndexOf(rows, rows[j].parentId.value).value)
  }

  predicate ParentsPlaced(e: Edition, start: Option<int>, rows: seq<CommentRow>) {
    forall j :: 0 <= j < |rows| ==> ParentPlaced(e, start, rows, j)
  }

  /** What the recursive query guarantees about its result. */
  predicate Nestable(e: Edition, start: Option<int>, rows: seq<CommentRow>) {
    DistinctIds(rows) && ParentsPlaced(e, start, rows)
  }

  /** Row `c` hangs under row `p`. */
  predicate IsChildOf(e: Edition, start: Option<int>, rows: seq<CommentRow>, c: int, p: int) {
    0 <= c < |rows| && 0 <= p < |rows| && !IsRoot(e, start, rows[c]) && rows[c].parentId.value == rows[p].id
  }

  /** A measure that children are below their parents on. */
  function Rank(e: Edition, n: nat, j: nat): nat
    requires j < n
  {
    if e == Api then j else n - 1 - j
  }

  /** The parent of a row that is not a root. */
  function Parent(e: Edition, start: Option<int>, rows: seq<CommentRow>, j: nat): (p: nat)
    requires Nestable(e, start, rows)
    requires j < |rows| && !IsRoot(e, start, rows[j])
    ensures p < |rows| && IsChildOf(e, start, rows, j, p) && Precedes(e, j, p)
    ensures Rank(e, |rows|, j) < Rank(e, |rows|, p)
  {
    assert ParentPlaced(e, start, rows, j);
    IndexOf(rows, rows[j].parentId.value).value
  }

  /** A row has one parent: the one `Parent` finds. */
  lemma ChildOfParent(e: Edition, start: Option<int>, rows: seq<CommentRow>, c: int, p: int)
    requires Nestable(e, start, rows)
    requires IsChildOf(e, start, rows, c, p)
    ensures p == Parent(e, start, rows, c)
    ensures Precedes(e, c, p) && Rank(e, |rows|, c) < Rank(e, |rows|, p)
  {
    var q := Parent(e, start, rows, c);
    assert IdAt(rows, q) == IdAt(rows, p);
  }

  /** The rows among the first `k` that hang under row `p`, in row order. */
  function ChildrenUpTo(e: Edition, start: Option<int>, rows: seq<CommentRow>, p: int, k: nat): (r: seq<nat>)
    requires k <= |rows|
    ensures forall c {:trigger c in r} :: c in r <==> 0 <= c < k && IsChildOf(e, start, rows, c, p)
    ensures forall a, b :: 0 <= a < b < |r| ==> r[a] < r[b]
    ensures forall a :: 0 <= a < |r| ==> r[a] < k
  {
    if k == 0 then []
    else
      ChildrenUpTo(e, start, rows, p, k - 1) + (if IsChildOf(e, start, rows, k - 1, p) then [k - 1] else [])
  }

  /** The `kids` of row `p` once every row is placed. */
  function Children(e: Edition, start: Option<int>, rows: seq<CommentRow>, p: int): (r: seq<nat>)
    ensures forall c {:trigger c in r} :: c in r <==> IsChildOf(e, start, rows, c, p)
    ensures forall a, b :: 0 <= a < b < |r| ==> r[a] < r[b]
    ensures forall a :: 0 <= a < |r| ==> r[a] < |rows|
  {
    ChildrenUpTo(e, start, rows, p, |rows|)
  }

  /** The roots among the first `k` rows, in row order. */
  function RootsUpTo(e: Edition, start: Option<int>, rows: seq<CommentRow>, k: nat): (r: seq<nat>)
    requires k <= |rows|
    ensures forall c {:trigger c in r} :: c in r <==> 0 <= c < k && IsRoot(e, start, rows[c])
    ensures forall a, b :: 0 <= a < b < |r| ==> r[a] < r[b]
    ensures forall a :: 0 <= a < |r| ==> r[a] < k
  {
    if k == 0 then []
    else RootsUpTo(e, start, rows, k - 1) + (if IsRoot(e, start, rows[k - 1]) then [k - 1] else [])
  }

  /** The response's top level: the roots, in row order. */
  function Roots(e: Edition, start: Option<int>, rows: seq<CommentRow>): (r: seq<nat>)
    ensures forall c {:trigger c in r} :: c in r <==> 0 <= c < |rows| && IsRoot(e, start, rows[c])
    ensures forall a, b :: 0 <= a < b < |r| ==> r[a] < r[b]
    ensures forall a :: 0 <= a < |r| ==> r[a] < |rows|
  {
    RootsUpTo(e, start, rows, |rows|)
  }

  /** The number of rows beneath row `p`. */
  function Below(e: Edition, start: Option<int>, rows: seq<CommentRow>, p: nat): nat
    requires Nestable(e, start, rows) && p < |rows|
    decreases Rank(e, |rows|, p), 1, 0
  {
    BelowUpTo(e, start, rows, p, |rows|)
  }

  /** The children of `p` among the first `k` rows, each counted with the rows beneath it. */
  function BelowUpTo(e: Edition, start: Option<int>, rows: seq<CommentRow>, p: nat, k: nat): nat
    requires Nestable(e, start, rows) && p < |rows| && k <= |rows|
    decreases Rank(e, |rows|, p), 0, k
  {
    if k == 0 then 0
    else if IsChildOf(e, start, rows, k - 1, p) then
      ChildOfParent(e, start, rows, k - 1, p);
      BelowUpTo(e, start, rows, p, k - 1) + 1 + Below(e, start, rows, k - 1)
    else BelowUpTo(e, start, rows, p, k - 1)
  }

  /**
   * The counter of row `p` after the rows before `k` are placed: each child adds one plus
   * its own counter in the api edition, and just one in the src edition.
   */
  function CounterUpTo(e: Edition, start: Option<int>, rows: seq<CommentRow>, p: nat, k: nat): nat
    requires Nestable(e, start, rows) && p < |rows| && k <= |rows|
  {
    if e == Api then BelowUpTo(e, start, rows, p, k) else |ChildrenUpTo(e, start, rows, p, k)|
  }

  /** The final `descendants` of row `p`. */
  function Descendants(e: Edition, start: Option<int>, rows: seq<CommentRow>, p: nat): nat
    requires Nestable(e, start, rows) && p < |rows|
  {
    CounterUpTo(e, start, rows, p, |rows|)
  }

  /** The response object of row `p`: its fields, its counter and its placed kids. */
  function Tree(e: Edition, start: Option<int>, rows: seq<CommentRow>, p: nat): (r: FormattedComment)
    requires Nestable(e, start, rows) && p < |rows|
    ensures r.id == rows[p].hnId && r.descendants == Descendants(e, start, rows, p)
    ensures |r.kids| == |Children(e, start, rows, p)|
    ensures e == Src ==> r.descendants == |r.kids|
    decreases Rank(e, |rows|, p)
  {
    var ch := Children(e, start, rows, p);
    assert forall c :: c in ch ==> c < |rows| && Rank(e, |rows|, c) < Rank(e, |rows|, p) by {
      forall c | c in ch
        ensures c < |rows| && Rank(e, |rows|, c) < Rank(e, |rows|, p)
      {
        ChildOfParent(e, start, rows, c, p);
      }
    }
    var row := rows[p];
    FormattedComment(row.hnId, row.text, row.username, row.createdAt, row.karma,
                     Descendants(e, start, rows, p),
                     seq(|ch|, i requires 0 <= i < |ch| => Tree(e, start, rows, ch[i])))
  }

  /** The trees of the given rows, in that order. */
  function TreesOf(e: Edition, start: Option<int>, rows: seq<CommentRow>, s: seq<nat>): (r: seq<FormattedComment>)
    requires Nestable(e, start, rows)
    requires forall i :: 0 <= i < |s| ==> s[i] < |rows|
    ensures |r| == |s| && forall i :: 0 <= i < |s| ==> r[i] == Tree(e, start, rows, s[i])
  {
    seq(|s|, i requires 0 <= i < |s| => Tree(e, start, rows, s[i]))
  }

  /** The nested forest before any reply-count sort: one tree per root, in row order. */
  function Forest(e: Edition, start: Option<int>, rows: seq<CommentRow>): (r: seq<FormattedComment>)
    requires Nestable(e, start, rows)
  {
    TreesOf(e, start, rows, Roots(e, start, rows))
  }

  /**
   * The two loops of the source. The first gives every row an empty `kids` list and a zero
   * counter in the map by id; the second makes each row a root or appends it to its
   * parent's list and bumps the parent's counter. The results are the final top level and
   * the final map contents: `Agrees` at `|rows|`, which `AllPlaced` restates.
   */
  method Nest(e: Edition, start: Option<int>, rows: seq<CommentRow>)
    returns (roots: seq<nat>, kids: map<int, seq<nat>>, desc: map<int, nat>)
    requires Nestable(e, start, rows)
    ensures roots == Roots(e, start, rows)
    ensures forall p :: 0 <= p < |rows| ==> Agrees(e, start, rows, kids, desc, p, |rows|)
  {
    kids, desc := NewEntries(rows);
    assert forall p :: 0 <= p < |rows| ==> Agrees(e, start, rows, kids, desc, p, 0);
    roots, kids, desc := PlaceRows(e, start, rows, kids, desc);
  }

  /** The first loop: an empty list and a zero counter under every row's id. */
  method NewEntries(rows: seq<CommentRow>) returns (kids: map<int, seq<nat>>, desc: map<int, nat>)
    ensures forall p :: 0 <= p < |rows| ==> rows[p].id in kids && rows[p].id in desc
    ensures forall p :: 0 <= p < |rows| ==> kids[rows[p].id] == [] && desc[rows[p].id] == 0
  {
    kids, desc := map[], map[];
    for i := 0 to |rows|
      invariant forall p :: 0 <= p < i ==> rows[p].id in kids && rows[p].id in desc
      invariant forall p :: 0 <= p < i ==> kids[rows[p].id] == [] && desc[rows[p].id] == 0
    {
      kids := kids[rows[i].id := []];
      desc := desc[rows[i].id := 0];
    }
  }

  /** The second loop, over entries that start empty. */
  method PlaceRows(e: Edition, start: Option<int>, rows: seq<CommentRow>, kids0: map<int, seq<nat>>, desc0: map<int, nat>)
    returns (roots: seq<nat>, kids: map<int, seq<nat>>, desc: map<int, nat>)
    requires Nestable(e, start, rows)
    requires forall p :: 0 <= p < |rows| ==> Agrees(e, start, rows, kids0, desc0, p, 0)
    ensures roots == Roots(e, start, rows)
    ensures forall p :: 0 <= p < |rows| ==> Agrees(e, start, rows, kids, desc, p, |rows|)
  {
    kids, desc := kids0, desc0;
    roots := [];
    for k := 0 to |rows|
      invariant roots == RootsUpTo(e, start, rows, k)
      invariant forall p :: 0 <= p < |rows| ==> Agrees(e, start, rows, kids, desc, p, k)
    {
      if IsRoot(e, start, rows[k]) {
        roots := roots + [k];
        PlaceRoot(e, start, rows, kids, desc, k, k + 1);
      } else {
        var pid := rows[k].parentId.value;
        EntriesPresent(e, start, rows, kids, desc, k);
        var bump := if e == Api then 1 + desc[rows[k].id] else 1;
        ghost var kidsK, descK := kids, desc;
        kids := kids[pid := kids[pid] + [k]];
        desc := desc[pid := desc[pid] + bump];
        PlaceChild(e, start, rows, kidsK, descK, kids, desc, k, k + 1);
      }
    }
  }

  /**
   * The formatted comment of row `p` as the caller sees it once the loop is over: the
   * object shares its `kids` list with the map entry and reads `descendants` from it.
   */
  function Readout(e: Edition, start: Option<int>, rows: seq<CommentRow>, kids: map<int, seq<nat>>,
                   desc: map<int, nat>, p: nat): (r: FormattedComment)
    requires Nestable(e, start, rows) && p < |rows|
    requires forall q :: 0 <= q < |rows| ==> Agrees(e, start, rows, kids, desc, q, |rows|)
    ensures r == Tree(e, start, rows, p)
    decreases Rank(e, |rows|, p)
  {
    assert Agrees(e, start, rows, kids, desc, p, |rows|);
    var ch := kids[rows[p].id];
    assert forall c :: c in ch ==> c < |rows| && Rank(e, |rows|, c) < Rank(e, |rows|, p) by {
      forall c | c in ch
        ensures c < |rows| && Rank(e, |rows|, c) < Rank(e, |rows|, p)
      {
        ChildOfParent(e, start, rows, c, p);
      }
    }
    var row := rows[p];
    var r := FormattedComment(row.hnId, row.text, row.username, row.createdAt, row.karma, desc[rows[p].id],
                              seq(|ch|, i requires 0 <= i < |ch| => Readout(e, start, rows, kids, desc, ch[i])));
    TreeKids(e, start, rows, p);
    assert r.kids == Tree(e, start, rows, p).kids;
    r
  }

  /** Once every row is placed, the entries hold the final `kids` and `descendants` of each row. */
  lemma AllPlaced(e: Edition, start: Option<int>, rows: seq<CommentRow>, kids: map<int, seq<nat>>, desc: map<int, nat>)
    requires Nestable(e, start, rows)
    requires forall p :: 0 <= p < |rows| ==> Agrees(e, start, rows, kids, desc, p, |rows|)
    ensures forall p {:trigger Children(e, start, rows, p)} :: 0 <= p < |rows| ==>
      Get(kids, rows[p].id) == Some(Children(e, start, rows, p))
    ensures forall p {:trigger Descendants(e, start, rows, p)} :: 0 <= p < |rows| ==>
      Get(desc, rows[p].id) == Some(Descendants(e, start, rows, p))
  {
    forall p | 0 <= p < |rows|
      ensures Get(kids, rows[p].id) == Some(Children(e, start, rows, p))
      ensures Get(desc, rows[p].id) == Some(Descendants(e, start, rows, p))
    {
      assert Agrees(e, start, rows, kids, desc, p, |rows|);
    }
  }

  /** Before row `k` is placed, its own entry and the entry of its parent exist. */
  lemma EntriesPresent(e: Edition, start: Option<int>, rows: seq<CommentRow>, kids: map<int, seq<nat>>,
                       desc: map<int, nat>, k: nat)
    requires Nestable(e, start, rows) && k < |rows| && !IsRoot(e, start, rows[k])
    requires forall p :: 0 <= p < |rows| ==> Agrees(e, start, rows, kids, desc, p, k)
    ensures rows[k].parentId.value in kids && rows[k].parentId.value in desc && rows[k].id in desc
  {
    assert Agrees(e, start, rows, kids, desc, Parent(e, start, rows, k), k);
    assert Agrees(e, start, rows, kids, desc, k, k);
  }

  /** Making row `k` a root leaves every list and counter as it was. */
  lemma PlaceRoot(e: Edition, start: Option<int>, rows: seq<CommentRow>, kids: map<int, seq<nat>>,
                  desc: map<int, nat>, k: nat, next: nat)
    requires Nestable(e, start, rows) && k < |rows| && IsRoot(e, start, rows[k]) && next == k + 1
    requires forall p :: 0 <= p < |rows| ==> Agrees(e, start, rows, kids, desc, p, k)
    ensures forall p :: 0 <= p < |rows| ==> Agrees(e, start, rows, kids, desc, p, next)
  {
    forall p | 0 <= p < |rows|
      ensures Agrees(e, start, rows, kids, desc, p, next)
    {
      assert Agrees(e, start, rows, kids, desc, p, k);
      StepUnder(e, start, rows, k, p);
    }
  }

  /** Appending row `k` to its parent's list and bumping the parent's counter. */
  lemma PlaceChild(e: Edition, start: Option<int>, rows: seq<CommentRow>, kids: map<int, seq<nat>>,
                   desc: map<int, nat>, kids': map<int, seq<nat>>, desc': map<int, nat>, k: nat, next: nat)
    requires Nestable(e, start, rows) && k < |rows| && !IsRoot(e, start, rows[k]) && next == k + 1
    requires forall p :: 0 <= p < |rows| ==> Agrees(e, start, rows, kids, desc, p, k)
    requires rows[k].parentId.value in kids && rows[k].parentId.value in desc && rows[k].id in desc
    requires kids' == kids[rows[k].parentId.value := kids[rows[k].parentId.value] + [k]]
    requires desc' == desc[rows[k].parentId.value :=
      desc[rows[k].parentId.value] + (if e == Api then 1 + desc[rows[k].id] else 1)]
    ensures forall p :: 0 <= p < |rows| ==> Agrees(e, start, rows, kids', desc', p, next)
  {
    assert Agrees(e, start, rows, kids, desc, k, k);
    forall p | 0 <= p < |rows|
      ensures Agrees(e, start, rows, kids', desc', p, next)
    {
      assert Agrees(e, start, rows, kids, desc, p, k);
      StepUnder(e, start, rows, k, p);
    }
  }

  /** The map entries of row `p` hold its list and counter after the rows before `k` are placed. */
  predicate Agrees(e: Edition, start: Option<int>, rows: seq<CommentRow>, kids: map<int, seq<nat>>,
                   desc: map<int, nat>, p: nat, k: nat)
    requires Nestable(e, start, rows) && p < |rows| && k <= |rows|
  {
    rows[p].id in kids && rows[p].id in desc
    && kids[rows[p].id] == ChildrenUpTo(e, start, rows, p, k) && desc[rows[p].id] == CounterUpTo(e, start, rows, p, k)
  }

  /** What placing row `k` does to the list and the counter of row `p`. */
  lemma StepUnder(e: Edition, start: Option<int>, rows: seq<CommentRow>, k: nat, p: nat)
    requires Nestable(e, start, rows) && k < |rows| && p < |rows|
    ensures ChildrenUpTo(e, start, rows, p, k + 1) ==
      ChildrenUpTo(e, start, rows, p, k) + (if IsChildOf(e, start, rows, k, p) then [k] else [])
    ensures CounterUpTo(e, start, rows, p, k + 1) == CounterUpTo(e, start, rows, p, k) +
      (if !IsChildOf(e, start, rows, k, p) then 0 else if e == Api then 1 + CounterUpTo(e, start, rows, k, k) else 1)
  {
    if e == Api && IsChildOf(e, start, rows, k, p) {
      CompleteBelow(start, rows, k, k, |rows|);
      assert Below(e, start, rows, k) == BelowUpTo(e, start, rows, k, k);
      assert BelowUpTo(e, start, rows, p, k + 1) == BelowUpTo(e, start, rows, p, k) + 1 + Below(e, start, rows, k);
    }
  }

  /** In the api edition the children of row `p` all come before it, so its count is complete at `p`. */
  lemma {:induction false} CompleteBelow(start: Option<int>, rows: seq<CommentRow>, p: nat, k: nat, m: nat)
    requires Nestable(Api, start, rows) && p < |rows| && p <= k <= m <= |rows|
    ensures BelowUpTo(Api, start, rows, p, m) == BelowUpTo(Api, start, rows, p, k)
    decreases m
  {
    if m > k {
      if IsChildOf(Api, start, rows, m - 1, p) {
        ChildOfParent(Api, start, rows, m - 1, p);
        assert false;
      }
      CompleteBelow(start, rows, p, k, m - 1);
    }
  }

  // ---------------------------------------------------------------------------------------
  // The forest read out

  /** The number of comments in a forest. */
  function CountNodes(f: seq<FormattedComment>): nat
    decreases f
  {
    if f == [] then 0 else CountNodes(f[..|f| - 1]) + 1 + CountNodes(f[|f| - 1].kids)
  }

  /** The ids of a forest, each tree in preorder. */
  function Flatten(f: seq<FormattedComment>): seq<int>
    decreases f
  {
    if f == [] then [] else Flatten(f[..|f| - 1]) + [f[|f| - 1].id] + Flatten(f[|f| - 1].kids)
  }

  /** How many times `h` occurs in `Flatten(f)`, counted tree by tree. */
  function Occ(f: seq<FormattedComment>, h: int): nat
    decreases f
  {
    if f == [] then 0
    else Occ(f[..|f| - 1], h) + (if f[|f| - 1].id == h then 1 else 0) + Occ(f[|f| - 1].kids, h)
  }

  lemma {:induction false} OccCounts(f: seq<FormattedComment>, h: int)
    ensures multiset(Flatten(f))[h] == Occ(f, h)
    decreases f
  {
    if f != [] {
      OccCounts(f[..|f| - 1], h);
      OccCounts(f[|f| - 1].kids, h);
    }
  }

  lemma OccSnoc(f: seq<FormattedComment>, t: FormattedComment, h: int)
    ensures Occ(f + [t], h) == Occ(f, h) + (if t.id == h then 1 else 0) + Occ(t.kids, h)
  {
    assert (f + [t])[..|f|] == f;
  }

  lemma TreesOfSnoc(e: Edition, start: Option<int>, rows: seq<CommentRow>, s: seq<nat>, c: nat)
    requires Nestable(e, start, rows)
    requires forall i :: 0 <= i < |s| ==> s[i] < |rows|
    requires c < |rows|
    ensures TreesOf(e, start, rows, s + [c]) == TreesOf(e, start, rows, s) + [Tree(e, start, rows, c)]
    ensures TreesOf(e, start, rows, s + [c])[..|s|] == TreesOf(e, start, rows, s)
  {
    assert TreesOf(e, start, rows, s + [c])[..|s|] == TreesOf(e, start, rows, s);
  }

  /** The kids of a tree are the trees of its children. */
  lemma TreeKids(e: Edition, start: Option<int>, rows: seq<CommentRow>, p: nat)
    requires Nestable(e, start, rows) && p < |rows|
    ensures forall i :: 0 <= i < |Children(e, start, rows, p)| ==> Children(e, start, rows, p)[i] < |rows|
    ensures Tree(e, start, rows, p).kids == TreesOf(e, start, rows, Children(e, start, rows, p))
  {
    var ch := Children(e, start, rows, p);
    assert forall i :: 0 <= i < |ch| ==> ch[i] in ch;
  }

  /**
   * In the api edition each child adds one plus its own counter, and rows come deepest
   * first, so a comment's `descendants` is the number of comments beneath it.
   */
  lemma {:induction false} DescendantsCountBelow(start: Option<int>, rows: seq<CommentRow>, p: nat)
    requires Nestable(Api, start, rows) && p < |rows|
    ensures Tree(Api, start, rows, p).descendants == CountNodes(Tree(Api, start, rows, p).kids)
    decreases Rank(Api, |rows|, p), 1, 0
  {
    TreeKids(Api, start, rows, p);
    BelowCounts(start, rows, p, |rows|);
  }

  lemma {:induction false} BelowCounts(start: Option<int>, rows: seq<CommentRow>, p: nat, k: nat)
    requires Nestable(Api, start, rows) && p < |rows| && k <= |rows|
    ensures forall i :: 0 <= i < |ChildrenUpTo(Api, start, rows, p, k)| ==> ChildrenUpTo(Api, start, rows, p, k)[i] < |rows|
    ensures BelowUpTo(Api, start, rows, p, k) == CountNodes(TreesOf(Api, start, rows, ChildrenUpTo(Api, start, rows, p, k)))
    decreases Rank(Api, |rows|, p), 0, k
  {
    if k == 0 {
      assert TreesOf(Api, start, rows, []) == [];
    } else {
      BelowCounts(start, rows, p, k - 1);
      if IsChildOf(Api, start, rows, k - 1, p) {
        ChildOfParent(Api, start, rows, k - 1, p);
        DescendantsCountBelow(start, rows, k - 1);
        BelowChildStep(start, rows, p, k - 1, k);
      } else {
        BelowOtherStep(start, rows, p, k - 1, k);
      }
    }
  }

  /** One step of `BelowCounts` over a row `c` that is a child of `p`. */
  lemma BelowChildStep(start: Option<int>, rows: seq<CommentRow>, p: nat, c: nat, next: nat)
    requires Nestable(Api, start, rows) && p < |rows| && next == c + 1 && next <= |rows|
    requires IsChildOf(Api, start, rows, c, p)
    requires BelowUpTo(Api, start, rows, p, c) == CountNodes(TreesOf(Api, start, rows, ChildrenUpTo(Api, start, rows, p, c)))
    requires Tree(Api, start, rows, c).descendants == CountNodes(Tree(Api, start, rows, c).kids)
    ensures BelowUpTo(Api, start, rows, p, next) == CountNodes(TreesOf(Api, start, rows, ChildrenUpTo(Api, start, rows, p, next)))
  {
    BelowSnoc(start, rows, p, c, next);
    ChildrenSnoc(Api, start, rows, p, c, next);
    CountTreesSnoc(Api, start, rows, ChildrenUpTo(Api, start, rows, p, c), c);
  }

  lemma BelowSnoc(start: Option<int>, rows: seq<CommentRow>, p: nat, c: nat, next: nat)
    requires Nestable(Api, start, rows) && p < |rows| && next == c + 1 && next <= |rows|
    requires IsChildOf(Api, start, rows, c, p)
    ensures BelowUpTo(Api, start, rows, p, next) == BelowUpTo(Api, start, rows, p, c) + 1 + Tree(Api, start, rows, c).descendants
  {
  }

  lemma ChildrenSnoc(e: Edition, start: Option<int>, rows: seq<CommentRow>, p: nat, c: nat, next: nat)
    requires next == c + 1 && next <= |rows|
    requires IsChildOf(e, start, rows, c, p)
    ensures ChildrenUpTo(e, start, rows, p, next) == ChildrenUpTo(e, start, rows, p, c) + [c]
  {
  }

  lemma CountTreesSnoc(e: Edition, start: Option<int>, rows: seq<CommentRow>, s: seq<nat>, c: nat)
    requires Nestable(e, start, rows)
    requires forall i :: 0 <= i < |s| ==> s[i] < |rows|
    requires c < |rows|
    ensures CountNodes(TreesOf(e, start, rows, s + [c]))
      == CountNodes(TreesOf(e, start, rows, s)) + 1 + CountNodes(Tree(e, start, rows, c).kids)
  {
    TreesOfSnoc(e, start, rows, s, c);
    CountNodesSnoc(TreesOf(e, start, rows, s), Tree(e, start, rows, c));
  }

  /** One step of `BelowCounts` over a row `c` that is not a child of `p`. */
  lemma BelowOtherStep(start: Option<int>, rows: seq<CommentRow>, p: nat, c: nat, next: nat)
    requires Nestable(Api, start, rows) && p < |rows| && next == c + 1 && next <= |rows|
    requires !IsChildOf(Api, start, rows, c, p)
    requires BelowUpTo(Api, start, rows, p, c) == CountNodes(TreesOf(Api, start, rows, ChildrenUpTo(Api, start, rows, p, c)))
    ensures BelowUpTo(Api, start, rows, p, next) == CountNodes(TreesOf(Api, start, rows, ChildrenUpTo(Api, start, rows, p, next)))
  {
    assert ChildrenUpTo(Api, start, rows, p, next) == ChildrenUpTo(Api, start, rows, p, c);
  }

  lemma CountNodesSnoc(f: seq<FormattedComment>, t: FormattedComment)
    ensures CountNodes(f + [t]) == CountNodes(f) + 1 + CountNodes(t.kids)
  {
    assert (f + [t])[..|f|] == f;
  }

  lemma FlattenSnoc(f: seq<FormattedComment>, t: FormattedComment)
    ensures Flatten(f + [t]) == Flatten(f) + [t.id] + Flatten(t.kids)
  {
    assert (f + [t])[..|f|] == f;
  }

  /** Row `a` is row `x` or above it. */
  ghost predicate AncOrSelf(e: Edition, start: Option<int>, rows: seq<CommentRow>, a: nat, x: nat)
    requires Nestable(e, start, rows) && a < |rows| && x < |rows|
    decreases |rows| - Rank(e, |rows|, x)
  {
    x == a || (!IsRoot(e, start, rows[x]) && AncOrSelf(e, start, rows, a, Parent(e, start, rows, x)))
  }

  lemma {:induction false} AncRank(e: Edition, start: Option<int>, rows: seq<CommentRow>, a: nat, x: nat)
    requires Nestable(e, start, rows) && a < |rows| && x < |rows|
    ensures AncOrSelf(e, start, rows, a, x) ==> Rank(e, |rows|, x) <= Rank(e, |rows|, a)
    decreases |rows| - Rank(e, |rows|, x)
  {
    if x != a && !IsRoot(e, start, rows[x]) {
      AncRank(e, start, rows, a, Parent(e, start, rows, x));
    }
  }

  /** What is above a child is above its parent. */
  lemma {:induction false} AncStep(e: Edition, start: Option<int>, rows: seq<CommentRow>, c: nat, p: nat, x: nat)
    requires Nestable(e, start, rows) && x < |rows| && IsChildOf(e, start, rows, c, p)
    ensures AncOrSelf(e, start, rows, c, x) ==> AncOrSelf(e, start, rows, p, x)
    decreases |rows| - Rank(e, |rows|, x)
  {
    ChildOfParent(e, start, rows, c, p);
    if x != c && !IsRoot(e, start, rows[x]) {
      AncStep(e, start, rows, c, p, Parent(e, start, rows, x));
    } else if x == c {
      assert AncOrSelf(e, start, rows, p, p);
    }
  }

  /** The rows above one row form a chain. */
  lemma {:induction false} AncChain(e: Edition, start: Option<int>, rows: seq<CommentRow>, a: nat, b: nat, x: nat)
    requires Nestable(e, start, rows) && a < |rows| && b < |rows| && x < |rows|
    requires AncOrSelf(e, start, rows, a, x) && AncOrSelf(e, start, rows, b, x)
    ensures AncOrSelf(e, start, rows, a, b) || AncOrSelf(e, start, rows, b, a)
    decreases |rows| - Rank(e, |rows|, x)
  {
    if x != a && x != b {
      AncChain(e, start, rows, a, b, Parent(e, start, rows, x));
    }
  }

  /** A row strictly below `p` is below exactly one child of `p`: this one. */
  lemma {:induction false} AncViaChild(e: Edition, start: Option<int>, rows: seq<CommentRow>, p: nat, x: nat) returns (c: nat)
    requires Nestable(e, start, rows) && p < |rows| && x < |rows|
    requires x != p && AncOrSelf(e, start, rows, p, x)
    ensures IsChildOf(e, start, rows, c, p) && AncOrSelf(e, start, rows, c, x)
    decreases |rows| - Rank(e, |rows|, x)
  {
    var q := Parent(e, start, rows, x);
    if q == p {
      c := x;
    } else {
      c := AncViaChild(e, start, rows, p, q);
    }
  }

  lemma ChildAboveUnique(e: Edition, start: Option<int>, rows: seq<CommentRow>, p: nat, c1: nat, c2: nat, x: nat)
    requires Nestable(e, start, rows) && x < |rows|
    requires IsChildOf(e, start, rows, c1, p) && IsChildOf(e, start, rows, c2, p)
    requires AncOrSelf(e, start, rows, c1, x) && AncOrSelf(e, start, rows, c2, x)
    ensures c1 == c2
  {
    AncChain(e, start, rows, c1, c2, x);
    ChildOfParent(e, start, rows, c1, p);
    ChildOfParent(e, start, rows, c2, p);
    AncRank(e, start, rows, c1, p);
    AncRank(e, start, rows, c2, p);
  }

  /** Every row lies under a root. */
  lemma {:induction false} RootAbove(e: Edition, start: Option<int>, rows: seq<CommentRow>, x: nat) returns (r: nat)
    requires Nestable(e, start, rows) && x < |rows|
    ensures r < |rows| && IsRoot(e, start, rows[r]) && AncOrSelf(e, start, rows, r, x)
    decreases |rows| - Rank(e, |rows|, x)
  {
    if IsRoot(e, start, rows[x]) {
      r := x;
    } else {
      r := RootAbove(e, start, rows, Parent(e, start, rows, x));
    }
  }

  /** How many rows of `s` are above row `x`. */
  ghost function CountAbove(e: Edition, start: Option<int>, rows: seq<CommentRow>, s: seq<nat>, x: nat): nat
    requires Nestable(e, start, rows) && x < |rows|
    requires forall i :: 0 <= i < |s| ==> s[i] < |rows|
  {
    if s == [] then 0
    else
      CountAbove(e, start, rows, s[..|s| - 1], x) + (if AncOrSelf(e, start, rows, s[|s| - 1], x) then 1 else 0)
  }

  lemma {:induction false} CountAboveNone(e: Edition, start: Option<int>, rows: seq<CommentRow>, s: seq<nat>, x: nat)
    requires Nestable(e, start, rows) && x < |rows|
    requires forall i :: 0 <= i < |s| ==> s[i] < |rows| && !AncOrSelf(e, start, rows, s[i], x)
    ensures CountAbove(e, start, rows, s, x) == 0
  {
    if s != [] {
      CountAboveNone(e, start, rows, s[..|s| - 1], x);
    }
  }

  /** A list without repeats holding `c`, the one row of it above `x`: the count is one. */
  lemma {:induction false} CountAboveOne(e: Edition, start: Option<int>, rows: seq<CommentRow>, s: seq<nat>, x: nat, c: nat)
    requires Nestable(e, start, rows) && x < |rows| && c < |rows|
    requires forall i :: 0 <= i < |s| ==> s[i] < |rows|
    requires forall a, b :: 0 <= a < b < |s| ==> s[a] < s[b]
    requires c in s && AncOrSelf(e, start, rows, c, x)
    requires forall i :: 0 <= i < |s| && AncOrSelf(e, start, rows, s[i], x) ==> s[i] == c
    ensures CountAbove(e, start, rows, s, x) == 1
  {
    var init := s[..|s| - 1];
    if s[|s| - 1] == c {
      CountAboveNone(e, start, rows, init, x);
    } else {
      assert c in init by {
        var j :| 0 <= j < |s| && s[j] == c;
        assert init[j] == c;
      }
      CountAboveOne(e, start, rows, init, x, c);
    }
  }

  /** The ids of what `TreesOf(s)` shows are ids of rows. */
  lemma {:induction false} FlattenRowIds(e: Edition, start: Option<int>, rows: seq<CommentRow>, s: seq<nat>, bound: nat)
    requires Nestable(e, start, rows)
    requires forall i :: 0 <= i < |s| ==> s[i] < |rows| && Rank(e, |rows|, s[i]) < bound
    ensures forall h :: h in Flatten(TreesOf(e, start, rows, s)) ==> h in HnIds(rows)
    decreases bound, |s|
  {
    if s != [] {
      var init := s[..|s| - 1];
      var c := s[|s| - 1];
      FlattenRowIds(e, start, rows, init, bound);
      TreesOfSnoc(e, start, rows, init, c);
      assert s == init + [c];
      TreeKids(e, start, rows, c);
      forall d | d in Children(e, start, rows, c)
        ensures Rank(e, |rows|, d) < Rank(e, |rows|, c)
      {
        ChildOfParent(e, start, rows, d, c);
      }
      FlattenRowIds(e, start, rows, Children(e, start, rows, c), Rank(e, |rows|, c));
      assert rows[c].hnId == HnIds(rows)[c];
    }
  }

  function HnIds(rows: seq<CommentRow>): (r: seq<int>)
    ensures |r| == |rows| && forall i :: 0 <= i < |rows| ==> r[i] == rows[i].hnId
  {
    seq(|rows|, i requires 0 <= i < |rows| => rows[i].hnId)
  }

  predicate DistinctHnIds(rows: seq<CommentRow>) {
    forall i, j :: 0 <= i < j < |rows| ==> rows[i].hnId != rows[j].hnId
  }

  /** Row `x` shows up in the trees of `s` once for each row of `s` above it. */
  lemma {:induction false} FlattenCounts(e: Edition, start: Option<int>, rows: seq<CommentRow>, s: seq<nat>, x: nat, bound: nat)
    requires Nestable(e, start, rows) && DistinctHnIds(rows) && x < |rows|
    requires forall i :: 0 <= i < |s| ==> s[i] < |rows| && Rank(e, |rows|, s[i]) < bound
    ensures Occ(TreesOf(e, start, rows, s), rows[x].hnId) == CountAbove(e, start, rows, s, x)
    decreases bound, |s|
  {
    if s == [] {
      assert TreesOf(e, start, rows, s) == [];
    } else {
      var init := s[..|s| - 1];
      var c := s[|s| - 1];
      FlattenCounts(e, start, rows, init, x, bound);
      TreeCounts(e, start, rows, c, x);
      FlattenCountsStep(e, start, rows, init, c, s, x);
    }
  }

  lemma FlattenCountsStep(e: Edition, start: Option<int>, rows: seq<CommentRow>, init: seq<nat>, c: nat, s: seq<nat>, x: nat)
    requires Nestable(e, start, rows) && x < |rows| && c < |rows|
    requires forall i :: 0 <= i < |init| ==> init[i] < |rows|
    requires s == init + [c]
    requires Occ(TreesOf(e, start, rows, init), rows[x].hnId) == CountAbove(e, start, rows, init, x)
    requires Occ(Tree(e, start, rows, c).kids, rows[x].hnId) + (if rows[c].hnId == rows[x].hnId then 1 else 0)
      == if AncOrSelf(e, start, rows, c, x) then 1 else 0
    ensures Occ(TreesOf(e, start, rows, s), rows[x].hnId) == CountAbove(e, start, rows, s, x)
  {
    OccTreesSnoc(e, start, rows, init, c, rows[x].hnId);
    CountAboveSnoc(e, start, rows, init, c, s, x);
  }

  lemma CountAboveSnoc(e: Edition, start: Option<int>, rows: seq<CommentRow>, init: seq<nat>, c: nat, s: seq<nat>, x: nat)
    requires Nestable(e, start, rows) && x < |rows| && c < |rows|
    requires forall i :: 0 <= i < |init| ==> init[i] < |rows|
    requires s == init + [c]
    ensures CountAbove(e, start, rows, s, x) == CountAbove(e, start, rows, init, x) + if AncOrSelf(e, start, rows, c, x) then 1 else 0
  {
    assert s[..|s| - 1] == init;
  }

  lemma OccTreesSnoc(e: Edition, start: Option<int>, rows: seq<CommentRow>, s: seq<nat>, c: nat, h: int)
    requires Nestable(e, start, rows)
    requires forall i :: 0 <= i < |s| ==> s[i] < |rows|
    requires c < |rows|
    ensures Occ(TreesOf(e, start, rows, s + [c]), h)
      == Occ(TreesOf(e, start, rows, s), h) + (if rows[c].hnId == h then 1 else 0) + Occ(Tree(e, start, rows, c).kids, h)
  {
    TreesOfSnoc(e, start, rows, s, c);
    OccSnoc(TreesOf(e, start, rows, s), Tree(e, start, rows, c), h);
  }

  /** The tree of `c` holds row `x` once if `c` is above it, and not at all otherwise. */
  lemma {:induction false} TreeCounts(e: Edition, start: Option<int>, rows: seq<CommentRow>, c: nat, x: nat)
    requires Nestable(e, start, rows) && DistinctHnIds(rows) && c < |rows| && x < |rows|
    ensures Occ(Tree(e, start, rows, c).kids, rows[x].hnId) + (if rows[c].hnId == rows[x].hnId then 1 else 0)
      == if AncOrSelf(e, start, rows, c, x) then 1 else 0
    decreases Rank(e, |rows|, c) + 1, 0
  {
    var ch := Children(e, start, rows, c);
    TreeKids(e, start, rows, c);
    forall i | 0 <= i < |ch|
      ensures Rank(e, |rows|, ch[i]) < Rank(e, |rows|, c)
    {
      assert ch[i] in ch;
      ChildOfParent(e, start, rows, ch[i], c);
    }
    FlattenCounts(e, start, rows, ch, x, Rank(e, |rows|, c));
    if x == c {
      forall i | 0 <= i < |ch|
        ensures !AncOrSelf(e, start, rows, ch[i], x)
      {
        AncRank(e, start, rows, ch[i], x);
      }
      CountAboveNone(e, start, rows, ch, x);
    } else {
      assert rows[c].hnId != rows[x].hnId by {
        if c < x { assert rows[c].hnId != rows[x].hnId; } else { assert rows[x].hnId != rows[c].hnId; }
      }
      if AncOrSelf(e, start, rows, c, x) {
        OneChildAbove(e, start, rows, c, x);
      } else {
        forall i | 0 <= i < |ch|
          ensures !AncOrSelf(e, start, rows, ch[i], x)
        {
          assert ch[i] in ch;
          AncStep(e, start, rows, ch[i], c, x);
        }
        CountAboveNone(e, start, rows, ch, x);
      }
    }
  }

  /** Below `p` but not `p` itself: exactly one child of `p` is above `x`. */
  lemma OneChildAbove(e: Edition, start: Option<int>, rows: seq<CommentRow>, p: nat, x: nat)
    requires Nestable(e, start, rows) && p < |rows| && x < |rows|
    requires x != p && AncOrSelf(e, start, rows, p, x)
    ensures CountAbove(e, start, rows, Children(e, start, rows, p), x) == 1
  {
    var ch := Children(e, start, rows, p);
    var d := AncViaChild(e, start, rows, p, x);
    forall i | 0 <= i < |ch| && AncOrSelf(e, start, rows, ch[i], x)
      ensures ch[i] == d
    {
      assert ch[i] in ch;
      ChildAboveUnique(e, start, rows, p, ch[i], d, x);
    }
    assert d in ch;
    CountAboveOne(e, start, rows, ch, x, d);
  }

  /** Exactly one root is above each row. */
  lemma OneRootAbove(e: Edition, start: Option<int>, rows: seq<CommentRow>, x: nat)
    requires Nestable(e, start, rows) && x < |rows|
    ensures CountAbove(e, start, rows, Roots(e, start, rows), x) == 1
  {
    var roots := Roots(e, start, rows);
    var r := RootAbove(e, start, rows, x);
    forall i | 0 <= i < |roots| && AncOrSelf(e, start, rows, roots[i], x)
      ensures roots[i] == r
    {
      assert roots[i] in roots;
      AncChain(e, start, rows, roots[i], r, x);
    }
    assert r in roots;
    CountAboveOne(e, start, rows, roots, x, r);
  }

  /** Every row of the query appears in the nested forest exactly once, and nothing else does. */
  lemma EachRowOnce(e: Edition, start: Option<int>, rows: seq<CommentRow>)
    requires Nestable(e, start, rows) && DistinctHnIds(rows)
    ensures multiset(Flatten(Forest(e, start, rows))) == multiset(HnIds(rows))
  {
    var roots := Roots(e, start, rows);
    var m := multiset(Flatten(Forest(e, start, rows)));
    forall h
      ensures m[h] == multiset(HnIds(rows))[h]
    {
      FlattenRowIds(e, start, rows, roots, |rows|);
      if h in HnIds(rows) {
        var x :| 0 <= x < |rows| && rows[x].hnId == h;
        FlattenCounts(e, start, rows, roots, x, |rows|);
        OccCounts(Forest(e, start, rows), h);
        OneRootAbove(e, start, rows, x);
        HnIdsOnce(rows, x);
      }
    }
    assert m == multiset(HnIds(rows));
  }

  lemma {:induction false} HnIdsOnce(rows: seq<CommentRow>, x: nat)
    requires DistinctHnIds(rows) && x < |rows|
    ensures multiset(HnIds(rows))[rows[x].hnId] == 1
  {
    if |rows| > 0 {
      var init := rows[..|rows| - 1];
      assert HnIds(rows) == HnIds(init) + [rows[|rows| - 1].hnId];
      if x < |rows| - 1 {
        assert init[x] == rows[x];
        HnIdsOnce(init, x);
      } else {
        assert rows[x].hnId !in HnIds(init);
      }
    }
  }

  /** Flattening distributes over concatenation. */
  lemma {:induction false} FlattenAppend(a: seq<FormattedComment>, b: seq<FormattedComment>)
    ensures Flatten(a + b) == Flatten(a) + Flatten(b)
    decreases |b|
  {
    if b == [] {
      assert a + b == a;
    } else {
      var b', y := b[..|b| - 1], b[|b| - 1];
      FlattenAppend(a, b');
      assert b == b' + [y];
      assert a + b == (a + b') + [y];
      FlattenSnoc(a + b', y);
      FlattenSnoc(b', y);
    }
  }

  /** Reordering the trees of a forest keeps the comments it holds. */
  lemma {:induction false} FlattenPermutation(f1: seq<FormattedComment>, f2: seq<FormattedComment>)
    requires multiset(f1) == multiset(f2)
    ensures multiset(Flatten(f1)) == multiset(Flatten(f2))
    decreases |f1|
  {
    if f1 == [] {
      assert |multiset(f2)| == 0;
      assert f2 == [];
    } else {
      var init := f1[..|f1| - 1];
      var x := f1[|f1| - 1];
      assert f1 == init + [x];
      assert x in multiset(f2);
      var i :| 0 <= i < |f2| && f2[i] == x;
      var left, right := f2[..i], f2[i + 1..];
      assert f2 == left + [x] + right;
      assert multiset(f2) == multiset(left) + multiset{x} + multiset(right);
      assert multiset(left + right) == multiset(left) + multiset(right);
      assert multiset(f1) == multiset(init) + multiset{x};
      CancelOne(multiset(init), multiset(left + right), x);
      FlattenPermutation(init, left + right);
      FlattenSnoc(init, x);
      FlattenLift(left, x, right);
    }
  }

  lemma CancelOne<T>(a: multiset<T>, b: multiset<T>, x: T)
    requires a + multiset{x} == b + multiset{x}
    ensures a == b
  {
    assert a == (a + multiset{x}) - multiset{x};
    assert b == (b + multiset{x}) - multiset{x};
  }

  /** Taking one tree out of the middle of a forest and appending it keeps the comments. */
  lemma FlattenLift(left: seq<FormattedComment>, x: FormattedComment, right: seq<FormattedComment>)
    ensures multiset(Flatten(left + [x] + right))
      == multiset(Flatten(left + right)) + multiset{x.id} + multiset(Flatten(x.kids))
  {
    FlattenAppend(left, right);
    FlattenAppend(left + [x], right);
    FlattenSnoc(left, x);
  }

  // ---------------------------------------------------------------------------------------
  // The order the recursive query returns

  /**
   * What the recursive common table expression guarantees: every row that is not a root
   * was joined to a row of the result that is its parent, one level up and with the same
   * `parent_order`.
   */
  predicate FromRecursiveQuery(e: Edition, start: Option<int>, rows: seq<CommentRow>) {
    DistinctIds(rows)
    && forall j :: 0 <= j < |rows| && !IsRoot(e, start, rows[j]) ==>
         exists i :: 0 <= i < |rows| && rows[i].id == rows[j].parentId.value
           && rows[i].depth + 1 == rows[j].depth && rows[i].parentOrder == rows[j].parentOrder
  }

  /** The api edition's `ORDER BY "depth" DESC, ...`. */
  predicate DeepestFirst(rows: seq<CommentRow>) {
    forall i, j :: 0 <= i < j < |rows| ==> rows[i].depth >= rows[j].depth
  }

  /** The src edition's `ORDER BY parent_order, "depth", "order"` (its first two keys). */
  predicate TreeByTree(rows: seq<CommentRow>) {
    forall i, j :: 0 <= i < j < |rows| ==>
      rows[i].parentOrder < rows[j].parentOrder
      || (rows[i].parentOrder == rows[j].parentOrder && rows[i].depth <= rows[j].depth)
  }

  /** Deepest-first rows put every parent after its children: the api loop can nest them. */
  lemma DeepestFirstNestable(start: Option<int>, rows: seq<CommentRow>)
    requires FromRecursiveQuery(Api, start, rows) && DeepestFirst(rows)
    ensures Nestable(Api, start, rows)
  {
    forall j | 0 <= j < |rows|
      ensures ParentPlaced(Api, start, rows, j)
    {
      if !IsRoot(Api, start, rows[j]) {
        var i := JoinedParent(Api, start, rows, j);
      }
    }
  }

  /** Rows grouped tree by tree, shallowest first, put every parent before its children. */
  lemma TreeByTreeNestable(rows: seq<CommentRow>)
    requires FromRecursiveQuery(Src, None, rows) && TreeByTree(rows)
    ensures Nestable(Src, None, rows)
  {
    forall j | 0 <= j < |rows|
      ensures ParentPlaced(Src, None, rows, j)
    {
      if !IsRoot(Src, None, rows[j]) {
        var i := JoinedParent(Src, None, rows, j);
      }
    }
  }

  /** The row the query joined row `j` to is the one `IndexOf` finds. */
  lemma JoinedParent(e: Edition, start: Option<int>, rows: seq<CommentRow>, j: nat) returns (i: nat)
    requires FromRecursiveQuery(e, start, rows) && j < |rows| && !IsRoot(e, start, rows[j])
    ensures i < |rows| && IndexOf(rows, rows[j].parentId.value) == Some(i)
    ensures rows[i].depth + 1 == rows[j].depth && rows[i].parentOrder == rows[j].parentOrder
  {
    var k :| 0 <= k < |rows| && rows[k].id == rows[j].parentId.value
      && rows[k].depth + 1 == rows[j].depth && rows[k].parentOrder == rows[j].parentOrder;
    var r := IndexOf(rows, rows[j].parentId.value);
    i := r.value;
    assert IdAt(rows, i) == IdAt(rows, k);
  }
}
