/**
 * `ItemPersistService` (api/src/services/item-persist.service.ts,
 * src/services/item-persist.service.ts): writes a crawled forest level by level into the
 * story and comment tables, threading three maps through the descent.
 *
 * The value-level specification `Persist` describes one call of `persistItems` as a
 * function of the persister's state (`PState`); the class `ItemPersister` is the service
 * itself, whose methods are proved to compute it.
 */
module ItemPersist {
  import opened Wrappers
  import opened Editions
  import opened Items
  import opened KeyedTable
  import SS = StoryService
  import CS = CommentService

  /** What the service is built with: the edition, the handle -> user id map and the clock reading. */
  datatype Ctx = Ctx(e: Edition, userMap: map<string, int>, now: int)

  /**
   * The persister's three maps and the two tables it writes: child -> root story external
   * id, story external -> internal id, comment external -> internal id.
   */
  datatype PState = PState(
    parentMap: map<int, int>,
    storyIds: map<int, int>,
    commentIds: map<int, int>,
    stories: SS.StoryTable,
    comments: CS.CommentTable)

  /** `userMap.get(item.by)`; an item without `by` has no user. */
  function UserOf(userMap: map<string, int>, author: Option<string>): Option<int> {
    match author
    case None => None
    case Some(a) => Get(userMap, a)
  }

  /** The item types written to the story table. */
  const StoryTypes: set<ItemType> := {Story, Job, Poll}

  /** The item types written to the comment table. */
  const CommentTypes: set<ItemType> := {Comment}

  // ---------------------------------------------------------------------------------------
  // The rows sent to the upserts

  /** The `story` row `#persistStories` builds for one item. */
  function StoryInsertOf(c: Ctx, x: ItemData, t: ItemType): (r: SS.StoryInsert)
    ensures r.hnId == x.id && r.cols.storyType == t
    ensures r.cols.dead == (x.dead == Some(true))
    ensures r.cols.score == (if x.score.Some? then x.score.value else 0)
    ensures r.cols.descendants == (if x.descendants.Some? then x.descendants.value else 0)
    ensures r.cols.createdAt == x.time * 1000
    ensures r.cols.deletedAt.Some? <==> x.deleted
    ensures r.cols.userId.Some? <==> x.author.Some? && x.author.value in c.userMap
    ensures r.cols.userId.Some? ==> r.cols.userId.value == c.userMap[x.author.value]
    ensures c.e == Src ==> r.cols.text.None?
  {
    Insert(x.id, SS.StoryColumns(
      x.title, x.url,
      if c.e == Api then x.text else None,
      x.dead.GetOr(false), x.score.GetOr(0), x.descendants.GetOr(0),
      UserOf(c.userMap, x.author), t,
      x.time * 1000,
      if x.deleted then Some(c.now) else None))
  }

  /** The story rows of one group, in group order. */
  function StoryInserts(c: Ctx, g: seq<Item>, t: ItemType): (r: seq<SS.StoryInsert>)
    ensures |r| == |g|
    ensures forall i :: 0 <= i < |g| ==> r[i] == StoryInsertOf(c, g[i].data, t)
  {
    seq(|g|, i requires 0 <= i < |g| => StoryInsertOf(c, g[i].data, t))
  }

  /** A recorded internal id is the id of the row the table stores under that external id. */
  predicate Agrees<V>(m: map<int, int>, tb: Table<V>) {
    forall h :: h in m ==> h in tb.rows && m[h] == tb.rows[h].id
  }

  /** The story map agrees with the story table, and the comment map with the comment table. */
  predicate IdsAgree(st: PState) {
    Agrees(st.storyIds, st.stories) && Agrees(st.commentIds, st.comments)
  }

  /**
   * The internal id of a comment's story: the story map entry of its root. The src edition
   * falls back to the story row stored under the root's external id (a subquery).
   */
  function StoryIdOf(c: Ctx, st: PState, id: int): Option<int> {
    match Get(st.parentMap, id)
    case None => None
    case Some(root) =>
      match Get(st.storyIds, root)
      case Some(s) => Some(s)
      case None =>
        if FallsBackToStoryLookup(c.e) && root in st.stories.rows then Some(st.stories.rows[root].id) else None
  }

  /** The recorded internal id of the comment an item names as its parent, if any. */
  function ParentIdOf(commentIds: map<int, int>, x: ItemData): Option<int> {
    match x.parent
    case None => None
    case Some(p) => Get(commentIds, p)
  }

  /** The item types the `story_type` enum of the story table admits; `poll` is not one of them. */
  const StoryTypeEnum: set<ItemType> := {Story, Job}

  /** A story row the table accepts: `user_id` is NOT NULL and `story_type` is in the enum. */
  predicate StoryRowAccepted(r: SS.StoryInsert) {
    r.cols.userId.Some? && r.cols.storyType in StoryTypeEnum
  }

  /**
   * The row built for an item is refused exactly when the group is the poll group, or the
   * item has no author, or its author is not in the user map.
   */
  lemma StoryRowRefused(c: Ctx, x: ItemData, t: ItemType)
    requires t in StoryTypes
    ensures !StoryRowAccepted(StoryInsertOf(c, x, t)) <==>
      t == Poll || x.author.None? || x.author.value !in c.userMap
  {
  }

  /**
   * One statement writes a whole group, so the table accepts the group's rows exactly when
   * the group is empty, or it is not the poll group and every item's author is a known user.
   */
  lemma {:induction false} StoryGroupAccepted(c: Ctx, g: seq<Item>, t: ItemType)
    requires t in StoryTypes
    ensures (forall i :: 0 <= i < |g| ==> StoryRowAccepted(StoryInserts(c, g, t)[i])) <==>
      g == [] || (t != Poll && forall x :: x in g ==> x.data.author.Some? && x.data.author.value in c.userMap)
  {
    var rows := StoryInserts(c, g, t);
    if forall i :: 0 <= i < |g| ==> StoryRowAccepted(rows[i]) {
      forall x | x in g ensures t != Poll && x.data.author.Some? && x.data.author.value in c.userMap {
        var i :| 0 <= i < |g| && g[i] == x;
        StoryRowRefused(c, x.data, t);
      }
      if g != [] {
        assert g[0] in g;
      }
    }
    if g == [] || (t != Poll && forall x :: x in g ==> x.data.author.Some? && x.data.author.value in c.userMap) {
      forall i | 0 <= i < |g| ensures StoryRowAccepted(rows[i]) {
        assert g[i] in g;
        StoryRowRefused(c, g[i].data, t);
      }
    }
  }

  /** The `comment` row `#persistComments` builds for the item at index `i` of its group. */
  function CommentInsertOf(c: Ctx, st: PState, x: ItemData, i: int): (r: CS.CommentInsert)
    ensures r.hnId == x.id && r.cols.order == i && r.cols.text == x.text
    ensures r.cols.parentId.Some? <==> x.parent.Some? && x.parent.value in st.commentIds
    ensures r.cols.parentId.Some? ==> r.cols.parentId.value == st.commentIds[x.parent.value]
    ensures r.cols.createdAt == x.time * 1000
    ensures r.cols.deletedAt.Some? <==> x.deleted
    ensures c.e == Api ==> (r.cols.storyId.Some? <==> x.id in st.parentMap && st.parentMap[x.id] in st.storyIds)
    ensures c.e == Src ==> (r.cols.storyId.Some? <==>
      x.id in st.parentMap && (st.parentMap[x.id] in st.storyIds || st.parentMap[x.id] in st.stories.rows))
    ensures Agrees(st.storyIds, st.stories) && r.cols.storyId.Some? ==>
      x.id in st.parentMap && st.parentMap[x.id] in st.stories.rows
      && r.cols.storyId.value == st.stories.rows[st.parentMap[x.id]].id
  {
    Insert(x.id, CS.CommentColumns(
      x.text, ParentIdOf(st.commentIds, x), StoryIdOf(c, st, x.id), UserOf(c.userMap, x.author), i,
      x.time * 1000, if x.deleted then Some(c.now) else None))
  }

  /** The comment rows of one group; `order` is the index within the group, 0..n-1. */
  function CommentInserts(c: Ctx, st: PState, g: seq<Item>): (r: seq<CS.CommentInsert>)
    ensures |r| == |g|
    ensures forall i :: 0 <= i < |g| ==> r[i] == CommentInsertOf(c, st, g[i].data, i) && r[i].cols.order == i
  {
    seq(|g|, i requires 0 <= i < |g| => CommentInsertOf(c, st, g[i].data, i))
  }

  // ---------------------------------------------------------------------------------------
  // The specification of one `persistItems` call

  /** `result.forEach((row) => map.set(row.hnId, row.id))` over the returned keys in order. */
  function Record(m: map<int, int>, keys: seq<Key>): map<int, int>
    decreases |keys|
  {
    if keys == [] then m
    else Record(m, keys[..|keys| - 1])[keys[|keys| - 1].hnId := keys[|keys| - 1].id]
  }

  /** The upsert of a list of rows, followed by recording the returned keys in `m`. */
  function UpsertRecord<V, I>(tb: Table<V>, m: map<int, int>, rows: seq<Insert<I>>, create: I -> V,
                              conflict: (V, I) -> V): (Table<V>, map<int, int>)
  {
    var r := UpsertAll(tb, rows, create, conflict);
    (r.0, Record(m, r.1))
  }

  /** `#persistStories`: upsert the group's rows and record the returned keys. */
  function PersistStories(c: Ctx, st: PState, g: seq<Item>, t: ItemType): PState {
    var r := UpsertRecord(st.stories, st.storyIds, StoryInserts(c, g, t), SS.NewStory, SS.Conflict(c.e));
    st.(stories := r.0, storyIds := r.1)
  }

  /** `#persistComments`: upsert the group's rows and record the returned keys. */
  function PersistComments(c: Ctx, st: PState, g: seq<Item>): PState {
    var r := UpsertRecord(st.comments, st.commentIds, CommentInserts(c, st, g), CS.NewComment, CS.Conflict(c.e));
    st.(comments := r.0, commentIds := r.1)
  }

  /** The write for one type group; `pollopt` groups are skipped. */
  function PersistGroup(c: Ctx, st: PState, g: seq<Item>, t: ItemType): PState {
    match t
    case Story => PersistStories(c, st, g, Story)
    case Job => PersistStories(c, st, g, Job)
    case Poll => PersistStories(c, st, g, Poll)
    case PollOpt => st
    case Comment => PersistComments(c, st, g)
  }

  /** Each kid of `parent` inherits the parent's root, or the parent itself when it has none. */
  function InheritKids(pm: map<int, int>, parent: ItemData, kids: seq<Item>): map<int, int>
    decreases |kids|
  {
    if kids == [] then pm
    else
      var m := InheritKids(pm, parent, kids[..|kids| - 1]);
      m[kids[|kids| - 1].data.id := Get(m, parent.id).GetOr(parent.id)]
  }

  /** The inheritance loop over the valid items of a group, in order. */
  function InheritAll(pm: map<int, int>, valid: seq<Item>): map<int, int>
    decreases |valid|
  {
    if valid == [] then pm
    else
      var last := valid[|valid| - 1];
      InheritKids(InheritAll(pm, valid[..|valid| - 1]), last.data, last.kids)
  }

  /** `persistItems(items)`: the type groups, one after another, in first-occurrence order. */
  function Persist(c: Ctx, st: PState, items: seq<Item>): PState
    decreases ForestSize(items), 2
  {
    PersistTypes(c, st, items, GroupTypes(items))
  }

  /** The loop over the groups, up to the end of `types`. */
  function PersistTypes(c: Ctx, st: PState, items: seq<Item>, types: seq<ItemType>): PState
    decreases ForestSize(items), 1, |types|
  {
    if types == [] then st
    else Step(c, PersistTypes(c, st, items, types[..|types| - 1]), items, types[|types| - 1])
  }

  /**
   * One group: write it, then, when its valid items have kids, let the kids inherit their
   * roots and persist them as the next level before the next group is written.
   */
  function Step(c: Ctx, st: PState, items: seq<Item>, t: ItemType): PState
    decreases ForestSize(items), 0
  {
    var g := OfType(items, t);
    var st1 := PersistGroup(c, st, g, t);
    var next := NextLevel(g);
    if next == [] then st1
    else
      NextLevelSmaller(items, t);
      Persist(c, st1.(parentMap := InheritAll(st1.parentMap, ValidItems(g))), next)
  }

  // ---------------------------------------------------------------------------------------
  // Recording the returned keys

  /** A key of the returned list. */
  predicate Returned(keys: seq<Key>, h: int) {
    exists i :: 0 <= i < |keys| && keys[i].hnId == h
  }

  /**
   * Recording adds exactly the returned keys. When every returned key names the identity
   * the table holds for it, then so does every recorded entry of a returned key.
   */
  lemma {:induction false} RecordFacts<V>(m: map<int, int>, keys: seq<Key>, tb: Table<V>)
    requires forall i :: 0 <= i < |keys| ==> keys[i].hnId in tb.rows && keys[i].id == tb.rows[keys[i].hnId].id
    ensures forall h :: h in Record(m, keys) <==> h in m || Returned(keys, h)
    ensures forall h :: Returned(keys, h) ==> Record(m, keys)[h] == tb.rows[h].id
    ensures forall h :: h in m && !Returned(keys, h) ==> Record(m, keys)[h] == m[h]
    decreases |keys|
  {
    if keys != [] {
      var init := keys[..|keys| - 1];
      assert forall i :: 0 <= i < |init| ==> init[i] == keys[i];
      RecordFacts(m, init, tb);
      assert forall h :: Returned(keys, h) <==> Returned(init, h) || h == keys[|keys| - 1].hnId;
    }
  }

  /**
   * `m2`, `tb2` are `m`, `tb` with exactly the ids `s` added, and a map that agreed with its
   * table still does.
   */
  ghost predicate Adds<V>(m: map<int, int>, tb: Table<V>, m2: map<int, int>, tb2: Table<V>, s: set<int>) {
    (forall h :: h in tb2.rows <==> h in tb.rows || h in s)
    && (forall h :: h in m2 <==> h in m || h in s)
    && (Agrees(m, tb) ==> Agrees(m2, tb2))
  }

  /**
   * Upserting rows keyed by a group's ids and recording the returned keys adds exactly the
   * group's ids to the table and to the map, and records each with the id the table holds.
   */
  lemma UpsertRecorded<V, I>(tb: Table<V>, m: map<int, int>, rows: seq<Insert<I>>, create: I -> V,
                             conflict: (V, I) -> V, g: seq<Item>)
    requires |rows| == |g| && forall i :: 0 <= i < |g| ==> rows[i].hnId == g[i].data.id
    ensures var u := UpsertRecord(tb, m, rows, create, conflict);
      (forall x :: x in g ==> x.data.id in u.1 && x.data.id in u.0.rows && u.1[x.data.id] == u.0.rows[x.data.id].id)
      && Adds(m, tb, u.1, u.0, Own(g))
  {
    var u := UpsertAll(tb, rows, create, conflict);
    UpsertAllFacts(tb, rows, create, conflict);
    RecordFacts(m, u.1, u.0);
    ReturnedListed(tb, rows, create, conflict);
    ListedOwn(rows, g);
    RecordAgrees(m, tb, u.1, u.0);
  }

  /** The keys a statement returns are the keys of its rows. */
  lemma ReturnedListed<V, I>(tb: Table<V>, rows: seq<Insert<I>>, create: I -> V, conflict: (V, I) -> V)
    ensures forall h :: Returned(UpsertAll(tb, rows, create, conflict).1, h) <==> Listed(rows, h)
  {
    var u := UpsertAll(tb, rows, create, conflict);
    UpsertAllFacts(tb, rows, create, conflict);
    forall h ensures Returned(u.1, h) <==> Listed(rows, h) {
      if Listed(rows, h) {
        var i :| 0 <= i < |rows| && rows[i].hnId == h;
        assert u.1[i].hnId == h;
      }
    }
  }

  /**
   * Recording keys that name the identities of `tb2` keeps a map in agreement, provided
   * `tb2` kept the identities of `tb`.
   */
  lemma RecordAgrees<V>(m: map<int, int>, tb: Table<V>, keys: seq<Key>, tb2: Table<V>)
    requires forall i :: 0 <= i < |keys| ==> keys[i].hnId in tb2.rows && keys[i].id == tb2.rows[keys[i].hnId].id
    requires forall h :: h in tb.rows ==> h in tb2.rows && tb2.rows[h].id == tb.rows[h].id
    ensures Agrees(m, tb) ==> Agrees(Record(m, keys), tb2)
  {
    RecordFacts(m, keys, tb2);
  }

  /** Every key a story group's upsert returns is recorded with the id the table holds. */
  lemma StoriesRecorded(c: Ctx, st: PState, g: seq<Item>, t: ItemType)
    ensures var r := PersistStories(c, st, g, t);
      (forall x :: x in g ==>
        x.data.id in r.storyIds && x.data.id in r.stories.rows && r.storyIds[x.data.id] == r.stories.rows[x.data.id].id)
      && Grew(st, r, Own(g), {})
  {
    UpsertRecorded(st.stories, st.storyIds, StoryInserts(c, g, t), SS.NewStory, SS.Conflict(c.e), g);
  }

  /** Every key a comment group's upsert returns is recorded with the id the table holds. */
  lemma CommentsRecorded(c: Ctx, st: PState, g: seq<Item>)
    ensures var r := PersistComments(c, st, g);
      (forall x :: x in g ==>
        x.data.id in r.commentIds && x.data.id in r.comments.rows && r.commentIds[x.data.id] == r.comments.rows[x.data.id].id)
      && Grew(st, r, {}, Own(g))
  {
    UpsertRecorded(st.comments, st.commentIds, CommentInserts(c, st, g), CS.NewComment, CS.Conflict(c.e), g);
  }

  /** The external ids of a list of items. */
  function Own(g: seq<Item>): (r: set<int>)
    ensures forall h :: h in r <==> exists x :: x in g && x.data.id == h
  {
    set x | x in g :: x.data.id
  }

  lemma ListedOwn<I>(rows: seq<Insert<I>>, g: seq<Item>)
    requires |rows| == |g| && forall i :: 0 <= i < |g| ==> rows[i].hnId == g[i].data.id
    ensures forall h :: Listed(rows, h) <==> h in Own(g)
  {
    forall h ensures Listed(rows, h) <==> h in Own(g) {
      if h in Own(g) {
        var x :| x in g && x.data.id == h;
        var i :| 0 <= i < |g| && g[i] == x;
        assert rows[i].hnId == h;
      }
    }
  }

  // ---------------------------------------------------------------------------------------
  // What a call writes

  /** The external ids of the nodes of types `ts` that the descent reaches. */
  function Reached(items: seq<Item>, ts: set<ItemType>): set<int> {
    if items == [] then {}
    else
      (if items[0].data.itemType in ts then {items[0].data.id} else {})
      + (if IsValid(items[0]) then Reached(items[0].kids, ts) else {})
      + Reached(items[1..], ts)
  }

  /** The reached ids of one item: itself when of type `ts`, and beneath it when it is valid. */
  function ReachedFrom(x: Item, ts: set<ItemType>): set<int> {
    (if x.data.itemType in ts then {x.data.id} else {}) + (if IsValid(x) then Reached(x.kids, ts) else {})
  }

  lemma {:induction false} ReachedMember(items: seq<Item>, ts: set<ItemType>)
    ensures forall h :: h in Reached(items, ts) <==> exists x :: x in items && h in ReachedFrom(x, ts)
  {
    if items != [] {
      ReachedMember(items[1..], ts);
      assert Reached(items, ts) == ReachedFrom(items[0], ts) + Reached(items[1..], ts);
      forall h | h in Reached(items, ts)
        ensures exists x :: x in items && h in ReachedFrom(x, ts)
      {
        if h !in ReachedFrom(items[0], ts) {
          var x :| x in items[1..] && h in ReachedFrom(x, ts);
          assert x in items;
        }
      }
      forall x, h | x in items && h in ReachedFrom(x, ts)
        ensures h in Reached(items, ts)
      {
        if x != items[0] {
          assert x in items[1..];
        }
      }
    }
  }

  lemma {:induction false} KidsOfMember(v: seq<Item>)
    ensures forall k :: k in KidsOf(v) <==> exists x :: x in v && k in x.kids
  {
    if v != [] {
      KidsOfMember(v[1..]);
      assert forall x :: x in v <==> x == v[0] || x in v[1..];
    }
  }

  /**
   * A group's reach is the group itself, when its type is one of `ts`, plus the reach of
   * the next level.
   */
  lemma ReachedLevels(items: seq<Item>, t: ItemType, ts: set<ItemType>)
    ensures Reached(OfType(items, t), ts) == (if t in ts then Own(OfType(items, t)) else {}) + Reached(NextLevel(OfType(items, t)), ts)
  {
    var g := OfType(items, t);
    var v := ValidItems(g);
    var next := KidsOf(v);
    ReachedMember(g, ts);
    ReachedMember(next, ts);
    KidsOfMember(v);
    forall h | h in Reached(next, ts)
      ensures h in Reached(g, ts)
    {
      var k :| k in next && h in ReachedFrom(k, ts);
      var x :| x in v && k in x.kids;
      ReachedMember(x.kids, ts);
      assert h in ReachedFrom(x, ts);
    }
    forall h | h in Reached(g, ts) && h !in (if t in ts then Own(g) else {})
      ensures h in Reached(next, ts)
    {
      var x :| x in g && h in ReachedFrom(x, ts);
      assert IsValid(x) && h in Reached(x.kids, ts);
      ReachedMember(x.kids, ts);
      var k :| k in x.kids && h in ReachedFrom(k, ts);
      assert x in v;
      assert k in next;
    }
    forall h | h in (if t in ts then Own(g) else {})
      ensures h in Reached(g, ts)
    {
      var x :| x in g && x.data.id == h;
      assert h in ReachedFrom(x, ts);
    }
  }

  /** The reach of the groups of `types`, one group after another. */
  function ReachedTypes(items: seq<Item>, types: seq<ItemType>, ts: set<ItemType>): set<int>
    decreases |types|
  {
    if types == [] then {}
    else ReachedTypes(items, types[..|types| - 1], ts) + Reached(OfType(items, types[|types| - 1]), ts)
  }

  /** The groups of every type that occurs reach what the level reaches. */
  lemma {:induction false} ReachedTypesAll(items: seq<Item>, types: seq<ItemType>, ts: set<ItemType>)
    ensures forall h :: h in ReachedTypes(items, types, ts) <==>
      exists x :: x in items && x.data.itemType in types && h in ReachedFrom(x, ts)
    decreases |types|
  {
    if types != [] {
      var init := types[..|types| - 1];
      var t := types[|types| - 1];
      ReachedTypesAll(items, init, ts);
      ReachedMember(OfType(items, t), ts);
      assert forall u :: u in types <==> u in init || u == t;
    }
  }

  lemma ReachedGroups(items: seq<Item>, ts: set<ItemType>)
    ensures ReachedTypes(items, GroupTypes(items), ts) == Reached(items, ts)
  {
    var types := GroupTypes(items);
    var grouped := ReachedTypes(items, types, ts);
    var all := Reached(items, ts);
    ReachedTypesAll(items, types, ts);
    ReachedMember(items, ts);
    forall h ensures h in grouped <==> h in all {
      if h in all {
        var x :| x in items && h in ReachedFrom(x, ts);
        assert x.data.itemType in types;
      }
      if h in grouped {
        var x :| x in items && x.data.itemType in types && h in ReachedFrom(x, ts);
      }
    }
  }

  /**
   * `st2` is `st` with exactly `s` added to the story table and story map and exactly `cm`
   * added to the comment table and comment map, and the maps still agree with the tables.
   */
  ghost predicate Grew(st: PState, st2: PState, s: set<int>, cm: set<int>) {
    Adds(st.storyIds, st.stories, st2.storyIds, st2.stories, s)
    && Adds(st.commentIds, st.comments, st2.commentIds, st2.comments, cm)
  }

  lemma GrewTrans(a: PState, b: PState, d: PState, s1: set<int>, c1: set<int>, s2: set<int>, c2: set<int>)
    requires Grew(a, b, s1, c1) && Grew(b, d, s2, c2)
    ensures Grew(a, d, s1 + s2, c1 + c2)
  {
  }

  lemma GroupKeepsParents(c: Ctx, st: PState, g: seq<Item>, t: ItemType)
    ensures PersistGroup(c, st, g, t).parentMap == st.parentMap
  {
  }

  lemma GroupGrew(c: Ctx, st: PState, g: seq<Item>, t: ItemType)
    ensures PersistGroup(c, st, g, t).parentMap == st.parentMap
    ensures Grew(st, PersistGroup(c, st, g, t),
                 if t in StoryTypes then Own(g) else {}, if t in CommentTypes then Own(g) else {})
  {
    match t
    case Story => StoriesRecorded(c, st, g, t);
    case Job => StoriesRecorded(c, st, g, t);
    case Poll => StoriesRecorded(c, st, g, t);
    case PollOpt =>
    case Comment => CommentsRecorded(c, st, g);
  }

  /**
   * `persistItems` writes exactly what the descent reaches: the story table and the story
   * map gain the reached stories, jobs and polls, the comment table and the comment map the
   * reached comments, and nothing else. Below a deleted or authorless item nothing is
   * written, and `pollopt` items are never written. The maps keep agreeing with the tables.
   */
  lemma {:induction false} PersistWrites(c: Ctx, st: PState, items: seq<Item>)
    ensures Grew(st, Persist(c, st, items), Reached(items, StoryTypes), Reached(items, CommentTypes))
    decreases ForestSize(items), 2
  {
    TypesWrite(c, st, items, GroupTypes(items));
    ReachedGroups(items, StoryTypes);
    ReachedGroups(items, CommentTypes);
  }

  lemma {:induction false} TypesWrite(c: Ctx, st: PState, items: seq<Item>, types: seq<ItemType>)
    ensures Grew(st, PersistTypes(c, st, items, types),
                 ReachedTypes(items, types, StoryTypes), ReachedTypes(items, types, CommentTypes))
    decreases ForestSize(items), 1, |types|
  {
    if types != [] {
      var init := types[..|types| - 1];
      var t := types[|types| - 1];
      var mid := PersistTypes(c, st, items, init);
      TypesWrite(c, st, items, init);
      StepWrites(c, mid, items, t);
      GrewTrans(st, mid, Step(c, mid, items, t),
                ReachedTypes(items, init, StoryTypes), ReachedTypes(items, init, CommentTypes),
                Reached(OfType(items, t), StoryTypes), Reached(OfType(items, t), CommentTypes));
    }
  }

  lemma {:induction false} StepWrites(c: Ctx, st: PState, items: seq<Item>, t: ItemType)
    ensures Grew(st, Step(c, st, items, t), Reached(OfType(items, t), StoryTypes), Reached(OfType(items, t), CommentTypes))
    decreases ForestSize(items), 0
  {
    var g := OfType(items, t);
    var st1 := PersistGroup(c, st, g, t);
    var next := NextLevel(g);
    var s1 := if t in StoryTypes then Own(g) else {};
    var c1 := if t in CommentTypes then Own(g) else {};
    GroupGrew(c, st, g, t);
    ReachedLevels(items, t, StoryTypes);
    ReachedLevels(items, t, CommentTypes);
    if next == [] {
      assert Step(c, st, items, t) == st1;
    } else {
      NextLevelSmaller(items, t);
      var st2 := st1.(parentMap := InheritAll(st1.parentMap, ValidItems(g)));
      assert Step(c, st, items, t) == Persist(c, st2, next);
      assert Grew(st, st2, s1, c1);
      PersistWrites(c, st2, next);
      GrewTrans(st, st2, Persist(c, st2, next), s1, c1, Reached(next, StoryTypes), Reached(next, CommentTypes));
    }
  }

  // ---------------------------------------------------------------------------------------
  // Every descendant inherits its root

  /** Number of nodes of a forest whose external id is `h`. */
  function Count(items: seq<Item>, h: int): nat {
    if items == [] then 0
    else (if items[0].data.id == h then 1 else 0) + Count(items[0].kids, h) + Count(items[1..], h)
  }

  /** No two nodes of the forest share an external id. */
  ghost predicate UniqueIds(items: seq<Item>) {
    forall h :: Count(items, h) <= 1
  }

  const AllTypes: set<ItemType> := {Story, Job, Poll, PollOpt, Comment}

  lemma InAllTypes(t: ItemType)
    ensures t in AllTypes
  {
    match t
    case Story =>
    case Job =>
    case Poll =>
    case PollOpt =>
    case Comment =>
  }

  /** The ids whose `parentMap` entry the descent below `x` sets. */
  function Below(x: Item): set<int> {
    if IsValid(x) then Reached(x.kids, AllTypes) else {}
  }

  /** What a kid of `x` inherits: the root recorded for `x`, or `x` itself. */
  function Anchor(pm: map<int, int>, x: ItemData): int {
    Get(pm, x.id).GetOr(x.id)
  }

  /** Every id beneath `x` is mapped by `r` to the anchor `pm` gives `x`. */
  ghost predicate AnchoredUnder(pm: map<int, int>, r: map<int, int>, x: Item) {
    forall h :: h in Below(x) ==> h in r && r[h] == Anchor(pm, x.data)
  }

  /** The ids below the items of the listed types. */
  ghost function BelowWhere(items: seq<Item>, types: seq<ItemType>): set<int> {
    set x, h | x in items && x.data.itemType in types && h in Below(x) :: h
  }

  /** The ids below any item of the level. */
  ghost function BelowAny(items: seq<Item>): set<int> {
    set x, h | x in items && h in Below(x) :: h
  }

  lemma CountOne(x: Item, h: int)
    ensures Count([x], h) == (if x.data.id == h then 1 else 0) + Count(x.kids, h)
  {
    assert [x][1..] == [];
  }

  lemma {:induction false} CountAppend(a: seq<Item>, b: seq<Item>, h: int)
    ensures Count(a + b, h) == Count(a, h) + Count(b, h)
  {
    if a == [] {
      assert a + b == b;
    } else {
      assert (a + b)[0] == a[0];
      assert (a + b)[1..] == a[1..] + b;
      CountAppend(a[1..], b, h);
    }
  }

  lemma {:induction false} CountMember(items: seq<Item>, x: Item, h: int)
    requires x in items
    ensures Count([x], h) <= Count(items, h)
  {
    CountOne(items[0], h);
    if items[0] != x {
      CountMember(items[1..], x, h);
    }
  }

  /** Two different items of a level hold disjoint parts of the forest. */
  lemma {:induction false} CountTwo(items: seq<Item>, x: Item, y: Item, h: int)
    requires x in items && y in items && x != y
    ensures Count([x], h) + Count([y], h) <= Count(items, h)
  {
    CountOne(items[0], h);
    if items[0] == x {
      CountMember(items[1..], y, h);
    } else if items[0] == y {
      CountMember(items[1..], x, h);
    } else {
      CountTwo(items[1..], x, y, h);
    }
  }

  lemma {:induction false} CountOfType(items: seq<Item>, t: ItemType, h: int)
    ensures Count(OfType(items, t), h) <= Count(items, h)
  {
    if items != [] {
      CountOfType(items[1..], t, h);
      var head := if items[0].data.itemType == t then [items[0]] else [];
      CountAppend(head, OfType(items[1..], t), h);
      CountOne(items[0], h);
    }
  }

  lemma {:induction false} CountValid(items: seq<Item>, h: int)
    ensures Count(ValidItems(items), h) <= Count(items, h)
  {
    if items != [] {
      CountValid(items[1..], h);
      var head := if IsValid(items[0]) then [items[0]] else [];
      CountAppend(head, ValidItems(items[1..]), h);
      CountOne(items[0], h);
    }
  }

  lemma {:induction false} CountKidsOf(v: seq<Item>, h: int)
    ensures Count(KidsOf(v), h) <= Count(v, h)
  {
    if v != [] {
      CountKidsOf(v[1..], h);
      CountAppend(v[0].kids, KidsOf(v[1..]), h);
    }
  }

  lemma UniqueGroup(items: seq<Item>, t: ItemType)
    requires UniqueIds(items)
    ensures UniqueIds(ValidItems(OfType(items, t)))
    ensures UniqueIds(NextLevel(OfType(items, t)))
  {
    forall h ensures Count(ValidItems(OfType(items, t)), h) <= 1 && Count(NextLevel(OfType(items, t)), h) <= 1 {
      CountOfType(items, t, h);
      CountValid(OfType(items, t), h);
      CountKidsOf(ValidItems(OfType(items, t)), h);
    }
  }

  lemma {:induction false} ReachedCounted(items: seq<Item>, ts: set<ItemType>, h: int)
    requires h in Reached(items, ts)
    ensures Count(items, h) >= 1
  {
    if items[0].data.id != h {
      if IsValid(items[0]) && h in Reached(items[0].kids, ts) {
        ReachedCounted(items[0].kids, ts, h);
      } else {
        ReachedCounted(items[1..], ts, h);
      }
    }
  }

  /** The id of an item of a level is not beneath any item of that level. */
  lemma TopNotBelow(items: seq<Item>, x: Item, y: Item)
    requires UniqueIds(items) && x in items && y in items
    ensures x.data.id !in Below(y)
  {
    var h := x.data.id;
    CountOne(x, h);
    CountOne(y, h);
    if x == y {
      CountMember(items, x, h);
    } else {
      CountTwo(items, x, y, h);
    }
    assert Count(y.kids, h) == 0;
    if IsValid(y) && h in Reached(y.kids, AllTypes) {
      ReachedCounted(y.kids, AllTypes, h);
    }
  }

  /** What lies beneath two different items of a level is disjoint. */
  lemma BelowApart(items: seq<Item>, x: Item, y: Item, h: int)
    requires UniqueIds(items) && x in items && y in items && x != y && h in Below(x)
    ensures h !in Below(y)
  {
    ReachedCounted(x.kids, AllTypes, h);
    CountOne(x, h);
    CountOne(y, h);
    CountTwo(items, x, y, h);
    assert Count(y.kids, h) == 0;
    if IsValid(y) && h in Reached(y.kids, AllTypes) {
      ReachedCounted(y.kids, AllTypes, h);
    }
  }

  /** A kid and everything beneath it lie beneath a valid parent. */
  lemma KidBelow(y: Item, k: Item)
    requires IsValid(y) && k in y.kids
    ensures k.data.id in Below(y)
    ensures forall h :: h in Below(k) ==> h in Below(y)
  {
    ReachedMember(y.kids, AllTypes);
    InAllTypes(k.data.itemType);
    assert k.data.id in ReachedFrom(k, AllTypes);
    forall h | h in Below(k) ensures h in Below(y) {
      assert h in ReachedFrom(k, AllTypes);
    }
  }

  /** What lies beneath a valid item is its kids and what lies beneath them. */
  lemma BelowKids(x: Item, h: int)
    requires h in Below(x)
    ensures exists k :: k in x.kids && (h == k.data.id || h in Below(k))
  {
    ReachedMember(x.kids, AllTypes);
    var k :| k in x.kids && h in ReachedFrom(k, AllTypes);
  }

  lemma {:induction false} KidsOfEmpty(v: seq<Item>)
    requires KidsOf(v) == []
    ensures forall x :: x in v ==> x.kids == []
  {
    if v != [] {
      KidsOfEmpty(v[1..]);
    }
  }

  /** The loop over one item's kids changes no entry but the kids'. */
  lemma {:induction false} InheritKidsFrame(pm: map<int, int>, parent: ItemData, kids: seq<Item>)
    ensures forall h :: (forall k :: k in kids ==> k.data.id != h) ==>
      Get(InheritKids(pm, parent, kids), h) == Get(pm, h)
    decreases |kids|
  {
    if kids != [] {
      var init := kids[..|kids| - 1];
      InheritKidsFrame(pm, parent, init);
      assert forall k :: k in init ==> k in kids;
    }
  }

  /** Each kid of `parent` is set to the parent's anchor. */
  lemma {:induction false} InheritKidsFacts(pm: map<int, int>, parent: ItemData, kids: seq<Item>)
    requires forall k :: k in kids ==> k.data.id != parent.id
    ensures forall k :: k in kids ==>
      k.data.id in InheritKids(pm, parent, kids) && InheritKids(pm, parent, kids)[k.data.id] == Anchor(pm, parent)
    decreases |kids|
  {
    if kids != [] {
      var init := kids[..|kids| - 1];
      assert forall k :: k in init ==> k in kids;
      InheritKidsFacts(pm, parent, init);
      InheritKidsFrame(pm, parent, init);
      assert forall k :: k in kids <==> k in init || k == kids[|kids| - 1];
    }
  }

  /** The inheritance loop over a level's valid items changes no entry but their kids'. */
  lemma {:induction false} InheritAllFrame(pm: map<int, int>, v: seq<Item>)
    ensures forall h :: (forall y, k :: y in v && k in y.kids ==> k.data.id != h) ==>
      Get(InheritAll(pm, v), h) == Get(pm, h)
    decreases |v|
  {
    if v != [] {
      var init := v[..|v| - 1];
      var last := v[|v| - 1];
      InheritAllFrame(pm, init);
      InheritKidsFrame(InheritAll(pm, init), last.data, last.kids);
      assert forall x :: x in init ==> x in v;
    }
  }

  /**
   * The inheritance loop over a level's valid items sets each kid to its parent's anchor,
   * when no two nodes of the level share an id.
   */
  lemma {:induction false} InheritAllFacts(pm: map<int, int>, v: seq<Item>)
    requires UniqueIds(v)
    ensures forall x, k :: x in v && k in x.kids ==>
      k.data.id in InheritAll(pm, v) && InheritAll(pm, v)[k.data.id] == Anchor(pm, x.data)
    decreases |v|
  {
    if v != [] {
      var init := v[..|v| - 1];
      var last := v[|v| - 1];
      var m := InheritAll(pm, init);
      var r := InheritKids(m, last.data, last.kids);
      assert v == init + [last];
      forall h ensures Count(init, h) <= 1 {
        CountAppend(init, [last], h);
      }
      InheritAllFacts(pm, init);
      InheritLast(pm, v);
      InheritKidsFrame(m, last.data, last.kids);
      forall x, k | x in v && k in x.kids
        ensures k.data.id in r && r[k.data.id] == Anchor(pm, x.data)
      {
        if x != last {
          assert x in init;
          forall k2 | k2 in last.kids ensures k2.data.id != k.data.id {
            KidsDisjoint(v, x, last, k, k2);
          }
          assert Get(r, k.data.id) == Get(m, k.data.id);
        }
      }
    }
  }

  /** The kids of the last valid item inherit its anchor as it was before the loop. */
  lemma InheritLast(pm: map<int, int>, v: seq<Item>)
    requires UniqueIds(v) && v != []
    ensures var last := v[|v| - 1];
      var r := InheritKids(InheritAll(pm, v[..|v| - 1]), last.data, last.kids);
      forall k :: k in last.kids ==> k.data.id in r && r[k.data.id] == Anchor(pm, last.data)
  {
    var init := v[..|v| - 1];
    var last := v[|v| - 1];
    var m := InheritAll(pm, init);
    assert last in v;
    forall y, k | y in init && k in y.kids ensures k.data.id != last.data.id {
      KidNotItem(v, last, y, k);
    }
    InheritAllFrame(pm, init);
    assert Anchor(m, last.data) == Anchor(pm, last.data);
    forall k | k in last.kids ensures k.data.id != last.data.id {
      KidNotItem(v, last, last, k);
    }
    InheritKidsFacts(m, last.data, last.kids);
  }

  /** No kid of an item of a level with unique ids shares an id with an item of the level. */
  lemma KidNotItem(v: seq<Item>, x: Item, y: Item, k: Item)
    requires UniqueIds(v) && x in v && y in v && k in y.kids
    ensures k.data.id != x.data.id
  {
    var h := k.data.id;
    CountMember(y.kids, k, h);
    CountOne(k, h);
    CountOne(x, h);
    CountOne(y, h);
    if x == y {
      CountMember(v, y, h);
    } else {
      CountTwo(v, x, y, h);
    }
  }

  /** Kids of two different items of a level with unique ids have different ids. */
  lemma KidsDisjoint(v: seq<Item>, x: Item, y: Item, k: Item, k2: Item)
    requires UniqueIds(v) && x in v && y in v && x != y && k in x.kids && k2 in y.kids
    ensures k.data.id != k2.data.id
  {
    var h := k.data.id;
    CountMember(x.kids, k, h);
    CountMember(y.kids, k2, k2.data.id);
    CountOne(k, h);
    CountOne(k2, k2.data.id);
    CountOne(x, h);
    CountOne(y, h);
    CountTwo(v, x, y, h);
  }

  /**
   * After `persistItems(items)`, each id beneath an item of the level maps to that item's
   * anchor (the root recorded for it, or the item itself), and no other entry changed,
   * provided no two nodes of the forest share an id.
   */
  lemma {:induction false} PersistAnchors(c: Ctx, st: PState, items: seq<Item>)
    requires UniqueIds(items)
    ensures forall h :: h !in BelowAny(items) ==> Get(Persist(c, st, items).parentMap, h) == Get(st.parentMap, h)
    ensures forall x :: x in items ==> AnchoredUnder(st.parentMap, Persist(c, st, items).parentMap, x)
    decreases ForestSize(items), 3
  {
    var types := GroupTypes(items);
    TypesAnchor(c, st, items, types);
    assert forall x :: x in items ==> x.data.itemType in types;
    assert BelowAny(items) == BelowWhere(items, types);
  }

  lemma {:induction false} TypesAnchor(c: Ctx, st: PState, items: seq<Item>, types: seq<ItemType>)
    requires UniqueIds(items)
    ensures forall h :: h !in BelowWhere(items, types) ==>
      Get(PersistTypes(c, st, items, types).parentMap, h) == Get(st.parentMap, h)
    ensures forall x :: x in items && x.data.itemType in types ==>
      AnchoredUnder(st.parentMap, PersistTypes(c, st, items, types).parentMap, x)
    decreases ForestSize(items), 2, |types|
  {
    if types != [] {
      var init := types[..|types| - 1];
      var t := types[|types| - 1];
      var mid := PersistTypes(c, st, items, init);
      var r := Step(c, mid, items, t).parentMap;
      assert PersistTypes(c, st, items, types).parentMap == r;
      TypesAnchor(c, st, items, init);
      StepAnchor(c, mid, items, t);
      assert forall u :: u in types <==> u in init || u == t;
      forall h | h !in BelowWhere(items, types)
        ensures Get(r, h) == Get(st.parentMap, h)
      {
        assert h !in BelowWhere(items, init) && h !in BelowWhere(items, [t]);
      }
      forall x | x in items && x.data.itemType in types
        ensures AnchoredUnder(st.parentMap, r, x)
      {
        if x.data.itemType == t {
          forall y | y in items ensures x.data.id !in Below(y) {
            TopNotBelow(items, x, y);
          }
          assert x.data.id !in BelowWhere(items, init);
        } else {
          forall h | h in Below(x) ensures h in r && r[h] == Anchor(st.parentMap, x.data) {
            forall y | y in items && y.data.itemType == t ensures h !in Below(y) {
              BelowApart(items, x, y, h);
            }
            assert h !in BelowWhere(items, [t]);
          }
        }
      }
    }
  }

  lemma {:induction false} StepAnchor(c: Ctx, st: PState, items: seq<Item>, t: ItemType)
    requires UniqueIds(items)
    ensures forall h :: h !in BelowWhere(items, [t]) ==>
      Get(Step(c, st, items, t).parentMap, h) == Get(st.parentMap, h)
    ensures forall x :: x in items && x.data.itemType == t ==>
      AnchoredUnder(st.parentMap, Step(c, st, items, t).parentMap, x)
    decreases ForestSize(items), 1
  {
    if KidsOf(ValidItems(OfType(items, t))) == [] {
      StepLeafAnchor(c, st, items, t);
    } else {
      StepDescentAnchor(c, st, items, t);
    }
  }

  /** `StepAnchor` for a group without a next level. */
  lemma StepLeafAnchor(c: Ctx, st: PState, items: seq<Item>, t: ItemType)
    requires UniqueIds(items) && KidsOf(ValidItems(OfType(items, t))) == []
    ensures forall h :: h !in BelowWhere(items, [t]) ==>
      Get(Step(c, st, items, t).parentMap, h) == Get(st.parentMap, h)
    ensures forall x :: x in items && x.data.itemType == t ==>
      AnchoredUnder(st.parentMap, Step(c, st, items, t).parentMap, x)
  {
    var g := OfType(items, t);
    GroupKeepsParents(c, st, g, t);
    assert Step(c, st, items, t) == PersistGroup(c, st, g, t);
    LeafGroup(items, t);
  }

  /** `StepAnchor` for a group with a next level. */
  lemma {:induction false} StepDescentAnchor(c: Ctx, st: PState, items: seq<Item>, t: ItemType)
    requires UniqueIds(items) && KidsOf(ValidItems(OfType(items, t))) != []
    ensures forall h :: h !in BelowWhere(items, [t]) ==>
      Get(Step(c, st, items, t).parentMap, h) == Get(st.parentMap, h)
    ensures forall x :: x in items && x.data.itemType == t ==>
      AnchoredUnder(st.parentMap, Step(c, st, items, t).parentMap, x)
    decreases ForestSize(items), 1, 0
  {
    var g := OfType(items, t);
    var v := ValidItems(g);
    GroupKeepsParents(c, st, g, t);
    var st2 := PersistGroup(c, st, g, t).(parentMap := InheritAll(st.parentMap, v));
    assert Step(c, st, items, t).parentMap == Persist(c, st2, KidsOf(v)).parentMap;
    DescentAnchors(c, st2, items, t, st.parentMap);
  }

  /** When the group has no next level, nothing lies beneath its items. */
  lemma LeafGroup(items: seq<Item>, t: ItemType)
    requires NextLevel(OfType(items, t)) == []
    ensures forall x :: x in items && x.data.itemType == t ==> Below(x) == {}
  {
    var v := ValidItems(OfType(items, t));
    KidsOfEmpty(v);
    forall x | x in items && x.data.itemType == t ensures Below(x) == {} {
      if IsValid(x) {
        assert x in v;
      }
    }
  }

  /** The descent into the next level of a group, from the map the group's kids inherit. */
  lemma {:induction false} DescentAnchors(c: Ctx, st2: PState, items: seq<Item>, t: ItemType, pm: map<int, int>)
    requires UniqueIds(items) && NextLevel(OfType(items, t)) != []
    requires st2.parentMap == InheritAll(pm, ValidItems(OfType(items, t)))
    ensures forall h :: h !in BelowWhere(items, [t]) ==>
      Get(Persist(c, st2, NextLevel(OfType(items, t))).parentMap, h) == Get(pm, h)
    ensures forall x :: x in items && x.data.itemType == t ==>
      AnchoredUnder(pm, Persist(c, st2, NextLevel(OfType(items, t))).parentMap, x)
    decreases ForestSize(items), 0
  {
    var next := NextLevel(OfType(items, t));
    NextLevelSmaller(items, t);
    UniqueGroup(items, t);
    PersistAnchors(c, st2, next);
    LevelAnchors(items, t, pm, Persist(c, st2, next).parentMap);
    LevelFrame(items, t, pm, Persist(c, st2, next).parentMap);
  }

  /**
   * If the descent into the next level anchors what lies beneath each kid and leaves the
   * rest of the inherited map alone, then what lies beneath each item of the group maps
   * to the item's anchor.
   */
  lemma LevelAnchors(items: seq<Item>, t: ItemType, pm: map<int, int>, r: map<int, int>)
    requires UniqueIds(items)
    requires forall h :: h !in BelowAny(NextLevel(OfType(items, t))) ==>
      Get(r, h) == Get(InheritAll(pm, ValidItems(OfType(items, t))), h)
    requires forall k :: k in NextLevel(OfType(items, t)) ==>
      AnchoredUnder(InheritAll(pm, ValidItems(OfType(items, t))), r, k)
    ensures forall x :: x in items && x.data.itemType == t ==> AnchoredUnder(pm, r, x)
  {
    forall x | x in items && x.data.itemType == t
      ensures AnchoredUnder(pm, r, x)
    {
      forall h | h in Below(x) ensures h in r && r[h] == Anchor(pm, x.data) {
        LevelAnchorAt(items, t, pm, r, x, h);
      }
    }
  }

  /** One item of the group and one id below it, for `LevelAnchors`. */
  lemma LevelAnchorAt(items: seq<Item>, t: ItemType, pm: map<int, int>, r: map<int, int>, x: Item, h: int)
    requires UniqueIds(items)
    requires forall h :: h !in BelowAny(NextLevel(OfType(items, t))) ==>
      Get(r, h) == Get(InheritAll(pm, ValidItems(OfType(items, t))), h)
    requires forall k :: k in NextLevel(OfType(items, t)) ==>
      AnchoredUnder(InheritAll(pm, ValidItems(OfType(items, t))), r, k)
    requires x in items && x.data.itemType == t && h in Below(x)
    ensures h in r && r[h] == Anchor(pm, x.data)
  {
    var v := ValidItems(OfType(items, t));
    assert x in v;
    BelowKids(x, h);
    var k :| k in x.kids && (h == k.data.id || h in Below(k));
    ItemAnchorsKid(items, t, pm, x, k);
    if h == k.data.id {
      KidIdFree(items, t, x, k);
    } else {
      assert AnchoredUnder(InheritAll(pm, v), r, k);
    }
  }

  /** A kid of a valid item of the group is on the next level, holding the item's anchor. */
  lemma ItemAnchorsKid(items: seq<Item>, t: ItemType, pm: map<int, int>, x: Item, k: Item)
    requires UniqueIds(items) && x in ValidItems(OfType(items, t)) && k in x.kids
    ensures k in NextLevel(OfType(items, t))
    ensures var pm1 := InheritAll(pm, ValidItems(OfType(items, t)));
      k.data.id in pm1 && pm1[k.data.id] == Anchor(pm, x.data)
  {
    var v := ValidItems(OfType(items, t));
    UniqueGroup(items, t);
    InheritAllFacts(pm, v);
    KidInNext(v, x, k);
  }

  /** The id of a kid of a valid item of the group lies beneath no item of the next level. */
  lemma KidIdFree(items: seq<Item>, t: ItemType, x: Item, k: Item)
    requires UniqueIds(items) && x in ValidItems(OfType(items, t)) && k in x.kids
    ensures k.data.id !in BelowAny(NextLevel(OfType(items, t)))
  {
    UniqueGroup(items, t);
    KidInNext(ValidItems(OfType(items, t)), x, k);
    KidNotBelowAny(NextLevel(OfType(items, t)), k);
  }

  /** A kid's own id lies beneath no item of the kid's level. */
  lemma KidNotBelowAny(next: seq<Item>, k: Item)
    requires UniqueIds(next) && k in next
    ensures k.data.id !in BelowAny(next)
  {
    forall y | y in next ensures k.data.id !in Below(y) {
      TopNotBelow(next, k, y);
    }
  }

  lemma {:induction false} KidInNext(v: seq<Item>, x: Item, k: Item)
    requires x in v && k in x.kids
    ensures k in KidsOf(v)
  {
    if v[0] != x {
      KidInNext(v[1..], x, k);
    }
  }

  /** Under the same conditions, nothing outside what lies beneath the group changes. */
  lemma LevelFrame(items: seq<Item>, t: ItemType, pm: map<int, int>, r: map<int, int>)
    requires forall h :: h !in BelowAny(NextLevel(OfType(items, t))) ==>
      Get(r, h) == Get(InheritAll(pm, ValidItems(OfType(items, t))), h)
    ensures forall h :: h !in BelowWhere(items, [t]) ==> Get(r, h) == Get(pm, h)
  {
    var v := ValidItems(OfType(items, t));
    var next := KidsOf(v);
    InheritAllFrame(pm, v);
    KidsOfMember(v);
    forall h | h !in BelowWhere(items, [t])
      ensures Get(r, h) == Get(pm, h)
    {
      forall y, k | y in v && k in y.kids ensures k.data.id != h {
        KidBelow(y, k);
        assert h !in Below(y);
      }
      forall k | k in next ensures h !in Below(k) {
        var y :| y in v && k in y.kids;
        KidBelow(y, k);
        assert h !in Below(y);
      }
      assert h !in BelowAny(next);
    }
  }

  /**
   * Starting from an empty `parentMap`, every node the descent reaches beneath a root maps
   * to that root's external id, when no two nodes of the forest share an id.
   */
  lemma RootsInherited(c: Ctx, st: PState, items: seq<Item>)
    requires st.parentMap == map[] && UniqueIds(items)
    ensures forall x, h :: x in items && h in Below(x) ==>
      h in Persist(c, st, items).parentMap && Persist(c, st, items).parentMap[h] == x.data.id
  {
    PersistAnchors(c, st, items);
    forall x, h | x in items && h in Below(x)
      ensures h in Persist(c, st, items).parentMap && Persist(c, st, items).parentMap[h] == x.data.id
    {
      assert AnchoredUnder(st.parentMap, Persist(c, st, items).parentMap, x);
    }
  }

  // ---------------------------------------------------------------------------------------
  // Batches

  /** The concatenation of a list of batches. */
  function Flatten<T>(ss: seq<seq<T>>): seq<T>
    decreases |ss|
  {
    if ss == [] then [] else Flatten(ss[..|ss| - 1]) + ss[|ss| - 1]
  }

  lemma {:induction false} FlattenCons<T>(a: seq<T>, ss: seq<seq<T>>)
    ensures Flatten([a] + ss) == a + Flatten(ss)
    decreases |ss|
  {
    if ss != [] {
      var init := ss[..|ss| - 1];
      assert ([a] + ss)[..|ss|] == [a] + init;
      FlattenCons(a, init);
    }
  }

  /** `_.chunk(rows, n)`: consecutive batches of `n` rows, the last one possibly shorter. */
  function Chunks<T>(s: seq<T>, n: nat): (r: seq<seq<T>>)
    requires n > 0
    ensures Flatten(r) == s
    ensures forall i :: 0 <= i < |r| ==> 0 < |r[i]| <= n
    decreases |s|
  {
    if s == [] then []
    else if |s| <= n then [s]
    else
      var rest := Chunks(s[n..], n);
      FlattenCons(s[..n], rest);
      assert s[..n] + s[n..] == s;
      [s[..n]] + rest
  }

  /** The batches an upsert of `rows` is sent in: 1000-row chunks (api), or one statement (src). */
  function Batches<T>(e: Edition, rows: seq<T>): (r: seq<seq<T>>)
    ensures Flatten(r) == rows
    ensures e == Src ==> r == [rows]
    ensures e == Api ==> forall i :: 0 <= i < |r| ==> 0 < |r[i]| <= 1000
  {
    match UpsertBatchSize(e)
    case Some(n) => Chunks(rows, n)
    case None =>
      assert Flatten([rows]) == Flatten([rows][..0]) + rows;
      [rows]
  }

  // ---------------------------------------------------------------------------------------
  // The service

  /**
   * `ItemPersistService`: the three maps it mutates, the user map it is built with, and the
   * two tables it writes, reached through their stores (the shared database handle).
   */
  class ItemPersister {
    var parentMap: map<int, int>
    var storyIdMap: map<int, int>
    var commentIdMap: map<int, int>
    const edition: Edition
    const userMap: map<string, int>
    const now: int
    const stories: SS.StoryStore
    const comments: CS.CommentStore

    function Context(): Ctx {
      Ctx(edition, userMap, now)
    }

    /** The persister's maps together with the two tables. */
    function State(): PState
      reads this, stories, comments
    {
      PState(parentMap, storyIdMap, commentIdMap, stories.table, comments.table)
    }

    ghost predicate Valid()
      reads this, stories, comments
    {
      stories.Valid() && comments.Valid()
    }

    /** A fresh service starts with three empty maps. */
    constructor (e: Edition, userMap: map<string, int>, now: int, stories: SS.StoryStore, comments: CS.CommentStore)
      requires stories.Valid() && comments.Valid()
      ensures Valid()
      ensures this.edition == e && this.userMap == userMap && this.now == now
      ensures this.stories == stories && this.comments == comments
      ensures parentMap == map[] && storyIdMap == map[] && commentIdMap == map[]
    {
      edition := e;
      this.userMap := userMap;
      this.now := now;
      this.stories := stories;
      this.comments := comments;
      parentMap := map[];
      storyIdMap := map[];
      commentIdMap := map[];
    }

    /** `#persistStories`: upsert the group's rows batch by batch, then record the returned keys. */
    method WriteStories(g: seq<Item>, t: ItemType)
      requires Valid()
      modifies this, stories
      ensures Valid()
      ensures State() == PersistStories(Context(), old(State()), g, t)
    {
      var rows := StoryInserts(Context(), g, t);
      var keys := UpsertStoryBatches(Batches(edition, rows));
      RecordStoryKeys(keys);
    }

    /** The story upserts of all batches, in batch order; the returned key lists, concatenated. */
    method UpsertStoryBatches(batches: seq<seq<SS.StoryInsert>>) returns (keys: seq<Key>)
      requires stories.Valid()
      modifies stories
      ensures stories.Valid()
      ensures (stories.table, keys) == UpsertAll(old(stories.table), Flatten(batches), SS.NewStory, SS.Conflict(edition))
    {
      keys := [];
      for b := 0 to |batches|
        invariant stories.Valid()
        invariant (stories.table, keys) == UpsertAll(old(stories.table), Flatten(batches[..b]), SS.NewStory, SS.Conflict(edition))
      {
        var result := stories.UpsertStories(edition, batches[b]);
        assert batches[..b + 1][..b] == batches[..b];
        UpsertAllAppend(old(stories.table), Flatten(batches[..b]), batches[b], SS.NewStory, SS.Conflict(edition));
        keys := keys + result;
      }
      assert batches[..|batches|] == batches;
    }

    /** `storyIdMap.set(story.hnId, story.id)` for each returned key, in order. */
    method RecordStoryKeys(keys: seq<Key>)
      modifies this
      ensures storyIdMap == Record(old(storyIdMap), keys)
      ensures parentMap == old(parentMap) && commentIdMap == old(commentIdMap)
    {
      for j := 0 to |keys|
        invariant storyIdMap == Record(old(storyIdMap), keys[..j])
        invariant parentMap == old(parentMap) && commentIdMap == old(commentIdMap)
      {
        assert keys[..j + 1][..j] == keys[..j];
        storyIdMap := storyIdMap[keys[j].hnId := keys[j].id];
      }
      assert keys[..|keys|] == keys;
    }

    /** `#persistComments`: build the rows from the current maps, upsert them batch by batch, record the keys. */
    method WriteComments(g: seq<Item>)
      requires Valid()
      modifies this, comments
      ensures Valid()
      ensures State() == PersistComments(Context(), old(State()), g)
    {
      var rows := CommentInserts(Context(), State(), g);
      var keys := UpsertCommentBatches(Batches(edition, rows));
      RecordCommentKeys(keys);
    }

    /** The comment upserts of all batches, in batch order; the returned key lists, concatenated. */
    method UpsertCommentBatches(batches: seq<seq<CS.CommentInsert>>) returns (keys: seq<Key>)
      requires comments.Valid()
      modifies comments
      ensures comments.Valid()
      ensures (comments.table, keys) == UpsertAll(old(comments.table), Flatten(batches), CS.NewComment, CS.Conflict(edition))
    {
      keys := [];
      for b := 0 to |batches|
        invariant comments.Valid()
        invariant (comments.table, keys) == UpsertAll(old(comments.table), Flatten(batches[..b]), CS.NewComment, CS.Conflict(edition))
      {
        var result := comments.UpsertComments(edition, batches[b]);
        assert batches[..b + 1][..b] == batches[..b];
        UpsertAllAppend(old(comments.table), Flatten(batches[..b]), batches[b], CS.NewComment, CS.Conflict(edition));
        keys := keys + result;
      }
      assert batches[..|batches|] == batches;
    }

    /** `commentIdMap.set(comment.hnId, comment.id)` for each returned key, in order. */
    method RecordCommentKeys(keys: seq<Key>)
      modifies this
      ensures commentIdMap == Record(old(commentIdMap), keys)
      ensures parentMap == old(parentMap) && storyIdMap == old(storyIdMap)
    {
      for j := 0 to |keys|
        invariant commentIdMap == Record(old(commentIdMap), keys[..j])
        invariant parentMap == old(parentMap) && storyIdMap == old(storyIdMap)
      {
        assert keys[..j + 1][..j] == keys[..j];
        commentIdMap := commentIdMap[keys[j].hnId := keys[j].id];
      }
      assert keys[..|keys|] == keys;
    }

    /** The inheritance loop: each kid of a valid item takes the item's root, or the item. */
    method InheritParents(valid: seq<Item>)
      modifies this
      ensures parentMap == InheritAll(old(parentMap), valid)
      ensures storyIdMap == old(storyIdMap) && commentIdMap == old(commentIdMap)
    {
      for i := 0 to |valid|
        invariant parentMap == InheritAll(old(parentMap), valid[..i])
        invariant storyIdMap == old(storyIdMap) && commentIdMap == old(commentIdMap)
      {
        var item := valid[i];
        assert valid[..i + 1][..i] == valid[..i];
        ghost var before := parentMap;
        if |item.kids| != 0 {
          for j := 0 to |item.kids|
            invariant parentMap == InheritKids(before, item.data, item.kids[..j])
            invariant storyIdMap == old(storyIdMap) && commentIdMap == old(commentIdMap)
          {
            assert item.kids[..j + 1][..j] == item.kids[..j];
            parentMap := parentMap[item.kids[j].data.id := Get(parentMap, item.data.id).GetOr(item.data.id)];
          }
          assert item.kids[..|item.kids|] == item.kids;
        }
      }
      assert valid[..|valid|] == valid;
    }

    /**
     * `persistItems(items)`: for each type group in first-occurrence order, write the group,
     * then let the kids of its valid items inherit their roots and persist them in turn.
     */
    method PersistItems(items: seq<Item>)
      requires Valid()
      modifies this, stories, comments
      ensures Valid()
      ensures State() == Persist(Context(), old(State()), items)
      decreases ForestSize(items), 1
    {
      var types := GroupTypes(items);
      for i := 0 to |types|
        invariant Valid()
        invariant State() == PersistTypes(Context(), old(State()), items, types[..i])
      {
        PersistGroupLevel(items, types[i]);
        assert types[..i + 1][..i] == types[..i];
      }
      assert types[..|types|] == types;
    }

    /** One pass of the loop of `persistItems`: the group of type `t`, then its kids. */
    method PersistGroupLevel(items: seq<Item>, t: ItemType)
      requires Valid()
      modifies this, stories, comments
      ensures Valid()
      ensures State() == Step(Context(), old(State()), items, t)
      decreases ForestSize(items), 0
    {
      var g := OfType(items, t);
      WriteGroup(g, t);
      var valid := ValidItems(g);
      var next := KidsOf(valid);
      if next != [] {
        InheritParents(valid);
        NextLevelSmaller(items, t);
        PersistItems(next);
      }
    }

    /** The write for one type group; `pollopt` groups are skipped. */
    method WriteGroup(g: seq<Item>, t: ItemType)
      requires Valid()
      modifies this, stories, comments
      ensures Valid()
      ensures State() == PersistGroup(Context(), old(State()), g, t)
    {
      match t {
        case Story => WriteStories(g, Story);
        case Job => WriteStories(g, Job);
        case Poll => WriteStories(g, Poll);
        case PollOpt =>
        case Comment => WriteComments(g);
      }
    }
  }
}
