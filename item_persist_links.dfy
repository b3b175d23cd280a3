/**
 * Where the comment rows of one `persistItems` call point (api/src/services/item-persist.service.ts:42-58,
 * 92-106): each comment written is stored with the internal id of the story its descent
 * started from and with the internal id of the comment it replies to.
 *
 * Both ids are read from the persister's maps at the moment the comment's group is
 * written. The lemmas here show that the maps already hold the right entries at that
 * moment, and that nothing the rest of the call writes disturbs the row or the entries,
 * provided no two nodes of the forest share an id and each kid names its parent.
 */
module PersistLinks {
  import opened Wrappers
  import opened Items
  import opened KeyedTable
  import opened ItemPersist
  import SS = StoryService
  import CS = CommentService

  // ---------------------------------------------------------------------------------------
  // The forest

  /** `z` is a node the descent from `items` reaches: an item of the level, or a node below a valid one. */
  ghost predicate ReachedIn(items: seq<Item>, z: Item)
    decreases items
  {
    exists x :: x in items && (z == x || (IsValid(x) && ReachedIn(x.kids, z)))
  }

  /** `z` is `x` or a node the descent reaches below `x`. */
  ghost predicate From(x: Item, z: Item) {
    z == x || (IsValid(x) && ReachedIn(x.kids, z))
  }

  /** Every kid names its parent in its `parent` field, at every depth, as the remote API serves it. */
  ghost predicate ParentsMatch(items: seq<Item>)
    decreases items
  {
    forall x :: x in items ==>
      (forall k :: k in x.kids ==> k.data.parent == Some(x.data.id)) && ParentsMatch(x.kids)
  }

  /**
   * What a call over `items` needs for its comment rows to point where they should: ids are
   * unique, kids name their parents, and neither the roots `pm` already gives the items nor
   * the parents the items name lie inside the forest.
   */
  ghost predicate LevelReady(pm: map<int, int>, items: seq<Item>) {
    UniqueIds(items) && ParentsMatch(items)
    && (forall x :: x in items && x.data.id in pm ==> Count(items, pm[x.data.id]) == 0)
    && (forall x :: x in items && x.data.parent.Some? ==> Count(items, x.data.parent.value) == 0)
  }

  // ---------------------------------------------------------------------------------------
  // The rows

  /** The comment row stored under `z`'s id holds the story id and the parent id the maps of `r` give. */
  ghost predicate Linked(c: Ctx, r: PState, z: ItemData) {
    z.id in r.comments.rows
    && r.comments.rows[z.id].data.storyId == StoryIdOf(c, r, z.id)
    && r.comments.rows[z.id].data.parentId == ParentIdOf(r.commentIds, z)
  }

  /** `st2` holds the same entries as `st` under the external id `h`, in all three maps and both tables. */
  ghost predicate SameAt(st: PState, st2: PState, h: int) {
    Get(st2.parentMap, h) == Get(st.parentMap, h)
    && Get(st2.storyIds, h) == Get(st.storyIds, h)
    && Get(st2.stories.rows, h) == Get(st.stories.rows, h)
    && Get(st2.commentIds, h) == Get(st.commentIds, h)
    && Get(st2.comments.rows, h) == Get(st.comments.rows, h)
  }

  /** `st2` holds the same entries as `st` under every id `z`'s row depends on. */
  ghost predicate SameLinks(st: PState, st2: PState, z: ItemData) {
    SameAt(st, st2, z.id)
    && (z.id in st.parentMap ==> SameAt(st, st2, st.parentMap[z.id]))
    && (z.parent.Some? ==> SameAt(st, st2, z.parent.value))
  }

  lemma LinkedKept(c: Ctx, st: PState, st2: PState, z: ItemData)
    requires Linked(c, st, z) && SameLinks(st, st2, z)
    ensures Linked(c, st2, z)
  {
  }

  /** `z` is a comment that has no row in `st`'s comment table. */
  ghost predicate Unwritten(st: PState, z: Item) {
    z.data.itemType == Comment && z.data.id !in st.comments.rows
  }

  // ---------------------------------------------------------------------------------------
  // What a call leaves alone

  /** An upsert and the recording of its keys leave the entries of an id no row names. */
  lemma UpsertRecordFrame<V, I>(tb: Table<V>, m: map<int, int>, rows: seq<Insert<I>>, create: I -> V,
                                conflict: (V, I) -> V, h: int)
    requires !Listed(rows, h)
    ensures Get(UpsertRecord(tb, m, rows, create, conflict).0.rows, h) == Get(tb.rows, h)
    ensures Get(UpsertRecord(tb, m, rows, create, conflict).1, h) == Get(m, h)
  {
    var u := UpsertAll(tb, rows, create, conflict);
    UpsertAllFacts(tb, rows, create, conflict);
    RecordFacts(m, u.1, u.0);
    ReturnedListed(tb, rows, create, conflict);
  }

  /** Writing a group leaves every entry of an id outside the group. */
  lemma GroupFrame(c: Ctx, st: PState, g: seq<Item>, t: ItemType, h: int)
    requires h !in Own(g)
    ensures SameAt(st, PersistGroup(c, st, g, t), h)
  {
    match t
    case Comment =>
      ListedOwn(CommentInserts(c, st, g), g);
      UpsertRecordFrame(st.comments, st.commentIds, CommentInserts(c, st, g), CS.NewComment, CS.Conflict(c.e), h);
    case PollOpt =>
    case _ =>
      ListedOwn(StoryInserts(c, g, t), g);
      UpsertRecordFrame(st.stories, st.storyIds, StoryInserts(c, g, t), SS.NewStory, SS.Conflict(c.e), h);
  }

  /** A call leaves every entry of an id that occurs nowhere in its forest. */
  lemma {:induction false} PersistFrame(c: Ctx, st: PState, items: seq<Item>, h: int)
    requires Count(items, h) == 0
    ensures SameAt(st, Persist(c, st, items), h)
    decreases ForestSize(items), 2
  {
    forall u: ItemType ensures Count(OfType(items, u), h) == 0 {
      CountOfType(items, u, h);
    }
    TypesFrame(c, st, items, GroupTypes(items), h);
  }

  lemma {:induction false} TypesFrame(c: Ctx, st: PState, items: seq<Item>, types: seq<ItemType>, h: int)
    requires forall u :: u in types ==> Count(OfType(items, u), h) == 0
    ensures SameAt(st, PersistTypes(c, st, items, types), h)
    decreases ForestSize(items), 1, |types|
  {
    if types != [] {
      var init := types[..|types| - 1];
      assert forall u :: u in init ==> u in types;
      TypesFrame(c, st, items, init, h);
      StepFrame(c, PersistTypes(c, st, items, init), items, types[|types| - 1], h);
    }
  }

  lemma {:induction false} StepFrame(c: Ctx, st: PState, items: seq<Item>, t: ItemType, h: int)
    requires Count(OfType(items, t), h) == 0
    ensures SameAt(st, Step(c, st, items, t), h)
    decreases ForestSize(items), 0
  {
    var g := OfType(items, t);
    if h in Own(g) {
      OwnCounted(g, h);
    }
    GroupFrame(c, st, g, t, h);
    var st1 := PersistGroup(c, st, g, t);
    var v := ValidItems(g);
    var next := NextLevel(g);
    if next != [] {
      NextLevelSmaller(items, t);
      NextCount(g, h);
      forall y, k | y in v && k in y.kids ensures k.data.id != h {
        NextKidCounted(g, y, k);
      }
      InheritAllFrame(st1.parentMap, v);
      var st2 := st1.(parentMap := InheritAll(st1.parentMap, v));
      PersistFrame(c, st2, next, h);
      assert Step(c, st, items, t) == Persist(c, st2, next);
    }
  }

  // ---------------------------------------------------------------------------------------
  // Counting nodes

  lemma OwnCounted(g: seq<Item>, h: int)
    requires h in Own(g)
    ensures Count(g, h) >= 1
  {
    var y :| y in g && y.data.id == h;
    CountMember(g, y, h);
    CountOne(y, h);
  }

  lemma NextCount(g: seq<Item>, h: int)
    ensures Count(NextLevel(g), h) <= Count(g, h)
  {
    CountValid(g, h);
    CountKidsOf(ValidItems(g), h);
  }

  lemma NextKidCounted(g: seq<Item>, y: Item, k: Item)
    requires y in ValidItems(g) && k in y.kids
    ensures k in NextLevel(g) && Count(NextLevel(g), k.data.id) >= 1
  {
    KidInNext(ValidItems(g), y, k);
    CountMember(NextLevel(g), k, k.data.id);
    CountOne(k, k.data.id);
  }

  /** The number of items of a level, not counting what is below them, whose id is `h`. */
  function Tops(items: seq<Item>, h: int): nat {
    if items == [] then 0 else (if items[0].data.id == h then 1 else 0) + Tops(items[1..], h)
  }

  /** A forest's nodes are its level's items and the nodes of the forest of their kids. */
  lemma {:induction false} CountSplit(items: seq<Item>, h: int)
    ensures Count(items, h) == Tops(items, h) + Count(KidsOf(items), h)
  {
    if items != [] {
      CountSplit(items[1..], h);
      CountAppend(items[0].kids, KidsOf(items[1..]), h);
    }
  }

  lemma {:induction false} TopsMember(items: seq<Item>, x: Item)
    requires x in items
    ensures Tops(items, x.data.id) >= 1
  {
    if items[0] != x {
      TopsMember(items[1..], x);
    }
  }

  lemma KidsOfOne(x: Item)
    ensures KidsOf([x]) == x.kids
  {
    assert [x][1..] == [];
    assert x.kids + [] == x.kids;
  }

  lemma {:induction false} KidsOfAppend(a: seq<Item>, b: seq<Item>)
    ensures KidsOf(a + b) == KidsOf(a) + KidsOf(b)
  {
    if a != [] {
      assert (a + b)[0] == a[0];
      assert (a + b)[1..] == a[1..] + b;
      KidsOfAppend(a[1..], b);
    } else {
      assert a + b == b;
    }
  }

  lemma {:induction false} KidsOfTypeCount(items: seq<Item>, t: ItemType, h: int)
    ensures Count(KidsOf(OfType(items, t)), h) <= Count(KidsOf(items), h)
  {
    if items != [] {
      KidsOfTypeCount(items[1..], t, h);
      var head := if items[0].data.itemType == t then [items[0]] else [];
      KidsOfAppend(head, OfType(items[1..], t));
      CountAppend(KidsOf(head), KidsOf(OfType(items[1..], t)), h);
      CountAppend(items[0].kids, KidsOf(items[1..]), h);
      if head != [] {
        KidsOfOne(items[0]);
      }
    }
  }

  lemma {:induction false} KidsOfValidCount(items: seq<Item>, h: int)
    ensures Count(KidsOf(ValidItems(items)), h) <= Count(KidsOf(items), h)
  {
    if items != [] {
      KidsOfValidCount(items[1..], h);
      var head := if IsValid(items[0]) then [items[0]] else [];
      KidsOfAppend(head, ValidItems(items[1..]));
      CountAppend(KidsOf(head), KidsOf(ValidItems(items[1..])), h);
      CountAppend(items[0].kids, KidsOf(items[1..]), h);
      if head != [] {
        KidsOfOne(items[0]);
      }
    }
  }

  /** No item of a level with unique ids occurs in the next level of any of its groups. */
  lemma TopNotInNext(items: seq<Item>, t: ItemType, x: Item)
    requires UniqueIds(items) && x in items
    ensures Count(NextLevel(OfType(items, t)), x.data.id) == 0
  {
    var h := x.data.id;
    CountSplit(items, h);
    TopsMember(items, x);
    KidsOfTypeCount(items, t, h);
    KidsOfValidCount(OfType(items, t), h);
  }

  /** An id absent from a level is absent from the next level of each of its groups. */
  lemma AbsentInNext(items: seq<Item>, t: ItemType, h: int)
    requires Count(items, h) == 0
    ensures Count(OfType(items, t), h) == 0 && Count(NextLevel(OfType(items, t)), h) == 0
  {
    CountOfType(items, t, h);
    NextCount(OfType(items, t), h);
  }

  /** What lies in `x` does not lie in the group of another type. */
  lemma {:induction false} CountOutside(items: seq<Item>, x: Item, u: ItemType, h: int)
    requires x in items && x.data.itemType != u
    ensures Count([x], h) + Count(OfType(items, u), h) <= Count(items, h)
  {
    var head := if items[0].data.itemType == u then [items[0]] else [];
    CountAppend(head, OfType(items[1..], u), h);
    CountOne(items[0], h);
    if head != [] {
      CountOne(head[0], h);
    }
    if items[0] == x {
      CountOfType(items[1..], u, h);
    } else {
      CountOutside(items[1..], x, u, h);
    }
  }

  /** In a level with unique ids, what lies in `x` does not lie in the group of another type. */
  lemma OutsideGroup(items: seq<Item>, x: Item, u: ItemType, h: int)
    requires UniqueIds(items) && x in items && x.data.itemType != u && Count([x], h) >= 1
    ensures Count(OfType(items, u), h) == 0
  {
    CountOutside(items, x, u, h);
  }

  /** The group of a level with unique ids has unique ids. */
  lemma UniqueOfType(items: seq<Item>, t: ItemType)
    requires UniqueIds(items)
    ensures UniqueIds(OfType(items, t))
  {
    forall h ensures Count(OfType(items, t), h) <= 1 {
      CountOfType(items, t, h);
    }
  }

  lemma {:induction false} CountPositions(g: seq<Item>, j: int, k: int, h: int)
    requires 0 <= j < k < |g|
    ensures Count([g[j]], h) + Count([g[k]], h) <= Count(g, h)
  {
    CountOne(g[0], h);
    if j == 0 {
      assert g[k] in g[1..];
      CountMember(g[1..], g[k], h);
    } else {
      CountPositions(g[1..], j - 1, k - 1, h);
    }
  }

  /** Two positions of a list with unique ids hold items with different ids. */
  lemma DistinctPositions(g: seq<Item>, j: int, k: int)
    requires UniqueIds(g) && 0 <= j < k < |g|
    ensures g[j].data.id != g[k].data.id
  {
    var h := g[j].data.id;
    CountPositions(g, j, k, h);
    CountOne(g[j], h);
    CountOne(g[k], h);
  }

  // ---------------------------------------------------------------------------------------
  // Reaching nodes

  lemma {:induction false} ReachedInCounted(items: seq<Item>, z: Item)
    requires ReachedIn(items, z)
    ensures Count(items, z.data.id) >= 1
    decreases items
  {
    var x :| x in items && (z == x || (IsValid(x) && ReachedIn(x.kids, z)));
    CountMember(items, x, z.data.id);
    CountOne(x, z.data.id);
    if z != x {
      ReachedInCounted(x.kids, z);
    }
  }

  lemma FromCounted(x: Item, z: Item)
    requires From(x, z)
    ensures Count([x], z.data.id) >= 1
  {
    CountOne(x, z.data.id);
    if z != x {
      ReachedInCounted(x.kids, z);
    }
  }

  /** A node the descent reaches has its id among the reached ids of its type. */
  lemma {:induction false} ReachedInId(items: seq<Item>, z: Item, ts: set<ItemType>)
    requires ReachedIn(items, z) && z.data.itemType in ts
    ensures z.data.id in Reached(items, ts)
    decreases items
  {
    var x :| x in items && (z == x || (IsValid(x) && ReachedIn(x.kids, z)));
    ReachedMember(items, ts);
    if z != x {
      ReachedInId(x.kids, z, ts);
    }
    assert z.data.id in ReachedFrom(x, ts);
  }

  /** A node reached below `x` is one whose `parentMap` entry the descent below `x` sets. */
  lemma BelowOf(x: Item, z: Item)
    requires IsValid(x) && ReachedIn(x.kids, z)
    ensures z.data.id in Below(x)
  {
    InAllTypes(z.data.itemType);
    ReachedInId(x.kids, z, AllTypes);
  }

  /** The kids of a valid reached node are reached. */
  lemma {:induction false} ReachedKid(items: seq<Item>, q: Item, z: Item)
    requires ReachedIn(items, q) && IsValid(q) && z in q.kids
    ensures ReachedIn(items, z)
    decreases items
  {
    var x :| x in items && (q == x || (IsValid(x) && ReachedIn(x.kids, q)));
    if q == x {
      assert From(z, z);
      assert ReachedIn(x.kids, z);
    } else {
      ReachedKid(x.kids, q, z);
    }
  }

  /** A reached node's kids name it as their parent. */
  lemma {:induction false} ParentsOfReached(items: seq<Item>, q: Item)
    requires ParentsMatch(items) && ReachedIn(items, q)
    ensures forall k :: k in q.kids ==> k.data.parent == Some(q.data.id)
    decreases items
  {
    var x :| x in items && (q == x || (IsValid(x) && ReachedIn(x.kids, q)));
    if q != x {
      ParentsOfReached(x.kids, q);
    }
  }

  /** A node reached below `x` names, as its parent, a node of `x`'s subtree. */
  lemma {:induction false} ParentWithin(items: seq<Item>, x: Item, z: Item)
    requires ParentsMatch(items) && x in items && IsValid(x) && ReachedIn(x.kids, z)
    ensures z.data.parent.Some? && Count([x], z.data.parent.value) >= 1
    decreases items
  {
    var k :| k in x.kids && (z == k || (IsValid(k) && ReachedIn(k.kids, z)));
    assert ParentsMatch(x.kids);
    if z == k {
      CountOne(x, x.data.id);
    } else {
      ParentWithin(x.kids, k, z);
      CountMember(x.kids, k, z.data.parent.value);
      CountOne(x, z.data.parent.value);
    }
  }

  lemma ParentsMatchNext(items: seq<Item>, t: ItemType)
    requires ParentsMatch(items)
    ensures ParentsMatch(NextLevel(OfType(items, t)))
  {
    var v := ValidItems(OfType(items, t));
    KidsOfMember(v);
    forall k | k in KidsOf(v)
      ensures (forall j :: j in k.kids ==> j.data.parent == Some(k.data.id)) && ParentsMatch(k.kids)
    {
      var y :| y in v && k in y.kids;
      assert ParentsMatch(y.kids);
    }
  }

  // ---------------------------------------------------------------------------------------
  // The level stays ready

  /** The groups written before a group leave the roots of the level's items as they were. */
  lemma ReadyKept(c: Ctx, st: PState, items: seq<Item>, types: seq<ItemType>)
    requires LevelReady(st.parentMap, items)
    ensures LevelReady(PersistTypes(c, st, items, types).parentMap, items)
  {
    var r := PersistTypes(c, st, items, types).parentMap;
    TypesAnchor(c, st, items, types);
    forall x | x in items ensures Get(r, x.data.id) == Get(st.parentMap, x.data.id) {
      forall y | y in items ensures x.data.id !in Below(y) {
        TopNotBelow(items, x, y);
      }
      assert x.data.id !in BelowWhere(items, types);
    }
  }

  /** A kid inherits a root that lies outside the next level. */
  lemma NextRootOutside(st: PState, items: seq<Item>, t: ItemType, y: Item, k: Item)
    requires LevelReady(st.parentMap, items) && y in ValidItems(OfType(items, t)) && k in y.kids
    ensures var pm2 := InheritAll(st.parentMap, ValidItems(OfType(items, t)));
      k.data.id in pm2 && Count(NextLevel(OfType(items, t)), pm2[k.data.id]) == 0
  {
    UniqueGroup(items, t);
    InheritAllFacts(st.parentMap, ValidItems(OfType(items, t)));
    if y.data.id in st.parentMap {
      AbsentInNext(items, t, st.parentMap[y.data.id]);
    } else {
      TopNotInNext(items, t, y);
    }
  }

  /** The next level of a group is ready once its kids inherit their roots. */
  lemma NextReady(st: PState, items: seq<Item>, t: ItemType)
    requires LevelReady(st.parentMap, items)
    ensures LevelReady(InheritAll(st.parentMap, ValidItems(OfType(items, t))), NextLevel(OfType(items, t)))
  {
    var v := ValidItems(OfType(items, t));
    var next := NextLevel(OfType(items, t));
    var pm2 := InheritAll(st.parentMap, v);
    UniqueGroup(items, t);
    ParentsMatchNext(items, t);
    KidsOfMember(v);
    forall k | k in next && k.data.id in pm2 ensures Count(next, pm2[k.data.id]) == 0 {
      var y :| y in v && k in y.kids;
      NextRootOutside(st, items, t, y, k);
    }
    forall k | k in next && k.data.parent.Some? ensures Count(next, k.data.parent.value) == 0 {
      var y :| y in v && k in y.kids;
      TopNotInNext(items, t, y);
    }
  }

  // ---------------------------------------------------------------------------------------
  // The rows are linked

  /** Writing a comment group stores each new comment with the ids the maps give at that moment. */
  lemma CommentGroupRow(c: Ctx, st: PState, g: seq<Item>, x: Item)
    requires UniqueIds(g) && x in g && x.data.id !in st.comments.rows
    ensures var r := PersistComments(c, st, g);
      x.data.id in r.comments.rows
      && r.comments.rows[x.data.id].data.storyId == StoryIdOf(c, st, x.data.id)
      && r.comments.rows[x.data.id].data.parentId == ParentIdOf(st.commentIds, x.data)
  {
    var rows := CommentInserts(c, st, g);
    var i :| 0 <= i < |g| && g[i] == x;
    forall j, k | 0 <= j < k < |rows| ensures rows[j].hnId != rows[k].hnId {
      DistinctPositions(g, j, k);
    }
    CS.UpsertCommentsContent(c.e, st.comments, rows, i);
  }


  /** A comment of the group being written is linked right after its group is written. */
  lemma GroupLinked(c: Ctx, st: PState, items: seq<Item>, x: Item)
    requires LevelReady(st.parentMap, items) && x in items && x.data.itemType == Comment
    requires x.data.id !in st.comments.rows
    ensures Linked(c, PersistGroup(c, st, OfType(items, Comment), Comment), x.data)
  {
    var g := OfType(items, Comment);
    UniqueOfType(items, Comment);
    CommentGroupRow(c, st, g, x);
    if x.data.parent.Some? {
      var p := x.data.parent.value;
      CountOfType(items, Comment, p);
      if p in Own(g) {
        OwnCounted(g, p);
      }
      GroupFrame(c, st, g, Comment, p);
    }
  }

  /** Letting the kids of a group inherit their roots leaves the entry of an item of the level. */
  lemma InheritKeeps(c: Ctx, s: PState, items: seq<Item>, t: ItemType, x: Item)
    requires UniqueIds(items) && x in items && Linked(c, s, x.data)
    ensures var s2 := s.(parentMap := InheritAll(s.parentMap, ValidItems(OfType(items, t))));
      Get(s2.parentMap, x.data.id) == Get(s.parentMap, x.data.id) && Linked(c, s2, x.data)
  {
    var v := ValidItems(OfType(items, t));
    forall y, k | y in v && k in y.kids ensures k.data.id != x.data.id {
      KidNotItem(items, x, y, k);
    }
    InheritAllFrame(s.parentMap, v);
  }

  /** The descent into the next level leaves the row of an item of the level linked. */
  lemma NextKeeps(c: Ctx, s: PState, items: seq<Item>, t: ItemType, x: Item)
    requires UniqueIds(items) && x in items && Linked(c, s, x.data)
    requires x.data.id in s.parentMap ==> Count(items, s.parentMap[x.data.id]) == 0
    requires x.data.parent.Some? ==> Count(items, x.data.parent.value) == 0
    ensures Linked(c, Persist(c, s, NextLevel(OfType(items, t))), x.data)
  {
    var next := NextLevel(OfType(items, t));
    TopNotInNext(items, t, x);
    PersistFrame(c, s, next, x.data.id);
    if x.data.id in s.parentMap {
      AbsentInNext(items, t, s.parentMap[x.data.id]);
      PersistFrame(c, s, next, s.parentMap[x.data.id]);
    }
    if x.data.parent.Some? {
      AbsentInNext(items, t, x.data.parent.value);
      PersistFrame(c, s, next, x.data.parent.value);
    }
    LinkedKept(c, s, Persist(c, s, next), x.data);
  }

  /** A comment of the group being written is linked once the whole step is done. */
  lemma TopLinked(c: Ctx, st: PState, items: seq<Item>, x: Item)
    requires LevelReady(st.parentMap, items) && x in items && x.data.itemType == Comment
    requires x.data.id !in st.comments.rows
    ensures Linked(c, Step(c, st, items, Comment), x.data)
  {
    var g := OfType(items, Comment);
    var st1 := PersistGroup(c, st, g, Comment);
    GroupLinked(c, st, items, x);
    if NextLevel(g) != [] {
      var st2 := st1.(parentMap := InheritAll(st1.parentMap, ValidItems(g)));
      InheritKeeps(c, st1, items, Comment, x);
      NextKeeps(c, st2, items, Comment, x);
      assert Step(c, st, items, Comment) == Persist(c, st2, NextLevel(g));
    }
  }

  /** A node reached below an item of a level lies in no group of that level. */
  lemma BelowFresh(items: seq<Item>, t: ItemType, x: Item, z: Item)
    requires UniqueIds(items) && x in items && IsValid(x) && ReachedIn(x.kids, z)
    ensures z.data.id !in Own(OfType(items, t))
  {
    var h := z.data.id;
    ReachedInCounted(x.kids, z);
    CountOne(x, h);
    if h in Own(OfType(items, t)) {
      var y :| y in OfType(items, t) && y.data.id == h;
      CountOne(y, h);
      if y == x {
        CountMember(items, x, h);
      } else {
        CountTwo(items, x, y, h);
      }
    }
  }

  /**
   * The comment rows a call writes are linked, when the level is ready: a reached comment
   * that had no row before the call ends up with the story and parent ids the final maps
   * give it.
   */
  lemma {:induction false} LinksHold(c: Ctx, st: PState, items: seq<Item>, z: Item)
    requires LevelReady(st.parentMap, items) && ReachedIn(items, z) && Unwritten(st, z)
    ensures Linked(c, Persist(c, st, items), z.data)
    decreases ForestSize(items), 3
  {
    var x :| x in items && (z == x || (IsValid(x) && ReachedIn(x.kids, z)));
    assert x.data.itemType in GroupTypes(items);
    LinksTypes(c, st, items, GroupTypes(items), x, z);
  }

  lemma {:induction false} LinksTypes(c: Ctx, st: PState, items: seq<Item>, types: seq<ItemType>, x: Item, z: Item)
    requires LevelReady(st.parentMap, items)
    requires forall i, j :: 0 <= i < j < |types| ==> types[i] != types[j]
    requires x in items && x.data.itemType in types && From(x, z) && Unwritten(st, z)
    ensures Linked(c, PersistTypes(c, st, items, types), z.data)
    decreases ForestSize(items), 2, |types|
  {
    var init := types[..|types| - 1];
    var t := types[|types| - 1];
    var mid := PersistTypes(c, st, items, init);
    ReadyKept(c, st, items, init);
    assert PersistTypes(c, st, items, types) == Step(c, mid, items, t);
    if x.data.itemType == t {
      FreshBefore(c, st, items, init, x, z);
      StepLinks(c, mid, items, t, x, z);
    } else {
      assert x.data.itemType in init;
      LinksTypes(c, st, items, init, x, z);
      KeepLinked(c, st, items, init, t, x, z);
    }
  }

  /** A node of an item whose group comes later is not written by the earlier groups. */
  lemma FreshBefore(c: Ctx, st: PState, items: seq<Item>, init: seq<ItemType>, x: Item, z: Item)
    requires UniqueIds(items) && x in items && x.data.itemType !in init && From(x, z)
    ensures SameAt(st, PersistTypes(c, st, items, init), z.data.id)
  {
    FromCounted(x, z);
    forall u | u in init ensures Count(OfType(items, u), z.data.id) == 0 {
      OutsideGroup(items, x, u, z.data.id);
    }
    TypesFrame(c, st, items, init, z.data.id);
  }

  /** A linked row of an earlier group stays linked while a group of another type is written. */
  lemma KeepLinked(c: Ctx, st: PState, items: seq<Item>, init: seq<ItemType>, t: ItemType, x: Item, z: Item)
    requires LevelReady(st.parentMap, items) && x in items && x.data.itemType in init && x.data.itemType != t
    requires From(x, z) && Linked(c, PersistTypes(c, st, items, init), z.data)
    ensures Linked(c, Step(c, PersistTypes(c, st, items, init), items, t), z.data)
  {
    var mid := PersistTypes(c, st, items, init);
    FromCounted(x, z);
    OutsideGroup(items, x, t, z.data.id);
    StepFrame(c, mid, items, t, z.data.id);
    if z == x {
      ReadyKept(c, st, items, init);
      if x.data.id in mid.parentMap {
        AbsentInNext(items, t, mid.parentMap[x.data.id]);
        StepFrame(c, mid, items, t, mid.parentMap[x.data.id]);
      }
      if x.data.parent.Some? {
        AbsentInNext(items, t, x.data.parent.value);
        StepFrame(c, mid, items, t, x.data.parent.value);
      }
    } else {
      TypesAnchor(c, st, items, init);
      BelowOf(x, z);
      assert mid.parentMap[z.data.id] == Anchor(st.parentMap, x.data);
      if x.data.id in st.parentMap {
        AbsentInNext(items, t, st.parentMap[x.data.id]);
      } else {
        CountOne(x, x.data.id);
        OutsideGroup(items, x, t, x.data.id);
      }
      StepFrame(c, mid, items, t, mid.parentMap[z.data.id]);
      ParentWithin(items, x, z);
      OutsideGroup(items, x, t, z.data.parent.value);
      StepFrame(c, mid, items, t, z.data.parent.value);
    }
    LinkedKept(c, mid, Step(c, mid, items, t), z.data);
  }

  lemma {:induction false} StepLinks(c: Ctx, st: PState, items: seq<Item>, t: ItemType, x: Item, z: Item)
    requires LevelReady(st.parentMap, items)
    requires x in items && x.data.itemType == t && From(x, z) && Unwritten(st, z)
    ensures Linked(c, Step(c, st, items, t), z.data)
    decreases ForestSize(items), 1
  {
    if z == x {
      TopLinked(c, st, items, x);
    } else {
      BelowLinked(c, st, items, t, x, z);
    }
  }

  /** A comment below an item of the group is linked by the descent into the next level. */
  lemma {:induction false} BelowLinked(c: Ctx, st: PState, items: seq<Item>, t: ItemType, x: Item, z: Item)
    requires LevelReady(st.parentMap, items) && x in items && x.data.itemType == t
    requires IsValid(x) && ReachedIn(x.kids, z) && Unwritten(st, z)
    ensures Linked(c, Step(c, st, items, t), z.data)
    decreases ForestSize(items), 0
  {
    var g := OfType(items, t);
    var v := ValidItems(g);
    var next := NextLevel(g);
    var k :| k in x.kids && (z == k || (IsValid(k) && ReachedIn(k.kids, z)));
    assert x in v;
    KidInNext(v, x, k);
    assert ReachedIn(next, z);
    var st1 := PersistGroup(c, st, g, t);
    BelowFresh(items, t, x, z);
    GroupFrame(c, st, g, t, z.data.id);
    GroupKeepsParents(c, st, g, t);
    var st2 := st1.(parentMap := InheritAll(st1.parentMap, v));
    NextReady(st, items, t);
    NextLevelSmaller(items, t);
    LinksHold(c, st2, next, z);
    assert Step(c, st, items, t) == Persist(c, st2, next);
  }

  // ---------------------------------------------------------------------------------------
  // The whole call

  /** A fresh persister over a forest as the remote API serves it. */
  ghost predicate FreshStart(st: PState, items: seq<Item>) {
    st.parentMap == map[] && st.storyIds == map[] && st.commentIds == map[]
    && UniqueIds(items) && ParentsMatch(items)
    && forall x :: x in items && x.data.parent.Some? ==> Count(items, x.data.parent.value) == 0
  }

  /** `z`'s row stores the id of `y`'s story row. */
  ghost predicate StoryLink(r: PState, y: Item, z: Item) {
    z.data.id in r.comments.rows && y.data.id in r.stories.rows
    && r.comments.rows[z.data.id].data.storyId == Some(r.stories.rows[y.data.id].id)
  }

  /** `z`'s row stores the id of `q`'s comment row. */
  ghost predicate ParentLink(r: PState, q: Item, z: Item) {
    z.data.id in r.comments.rows && q.data.id in r.comments.rows
    && r.comments.rows[z.data.id].data.parentId == Some(r.comments.rows[q.data.id].id)
  }

  /** From a fresh persister, each reached story is recorded with the id of its row. */
  lemma RootRecorded(c: Ctx, st: PState, items: seq<Item>, y: Item)
    requires FreshStart(st, items) && y in items && y.data.itemType in StoryTypes
    ensures var r := Persist(c, st, items);
      y.data.id in r.storyIds && y.data.id in r.stories.rows && r.storyIds[y.data.id] == r.stories.rows[y.data.id].id
  {
    var r := Persist(c, st, items);
    PersistWrites(c, st, items);
    ReachedMember(items, StoryTypes);
    assert y.data.id in ReachedFrom(y, StoryTypes);
    assert Agrees(r.storyIds, r.stories);
  }

  /** From a fresh persister, each comment reached below a root maps to that root. */
  lemma RootInherited(c: Ctx, st: PState, items: seq<Item>, y: Item, z: Item)
    requires FreshStart(st, items) && y in items && IsValid(y) && ReachedIn(y.kids, z)
    ensures var r := Persist(c, st, items);
      z.data.id in r.parentMap && r.parentMap[z.data.id] == y.data.id
  {
    BelowOf(y, z);
    RootsInherited(c, st, items);
  }

  /** A comment reached below a story root stores the id of the root's story row. */
  lemma StoryLinked(c: Ctx, st: PState, items: seq<Item>, y: Item, z: Item)
    requires FreshStart(st, items)
    requires y in items && y.data.itemType in StoryTypes && IsValid(y) && ReachedIn(y.kids, z) && Unwritten(st, z)
    ensures StoryLink(Persist(c, st, items), y, z)
  {
    assert y in items && (z == y || (IsValid(y) && ReachedIn(y.kids, z)));
    LinksHold(c, st, items, z);
    RootInherited(c, st, items, y, z);
    RootRecorded(c, st, items, y);
  }

  /** From a fresh persister, each reached comment is recorded with the id of its row. */
  lemma CommentRecorded(c: Ctx, st: PState, items: seq<Item>, q: Item)
    requires FreshStart(st, items) && ReachedIn(items, q) && q.data.itemType == Comment
    ensures var r := Persist(c, st, items);
      q.data.id in r.commentIds && q.data.id in r.comments.rows && r.commentIds[q.data.id] == r.comments.rows[q.data.id].id
  {
    var r := Persist(c, st, items);
    PersistWrites(c, st, items);
    ReachedInId(items, q, CommentTypes);
    assert Agrees(r.commentIds, r.comments);
  }

  /** A comment replying to a reached comment stores the id of that comment's row. */
  lemma ParentLinked(c: Ctx, st: PState, items: seq<Item>, q: Item, z: Item)
    requires FreshStart(st, items)
    requires ReachedIn(items, q) && q.data.itemType == Comment && IsValid(q) && z in q.kids && Unwritten(st, z)
    ensures ParentLink(Persist(c, st, items), q, z)
  {
    ReachedKid(items, q, z);
    LinksHold(c, st, items, z);
    ParentsOfReached(items, q);
    CommentRecorded(c, st, items, q);
  }

  /**
   * A call of `persistItems` on a fresh persister, over a crawled forest with unique ids in
   * which every kid names its parent and no top-level item names a parent inside the
   * forest, stores every reached comment that had no row before with the internal id of the
   * story row of the story, job or poll its descent started from, and with the internal id
   * of the comment row of the comment it replies to.
   */
  lemma CommentRowsLinked(c: Ctx, st: PState, items: seq<Item>)
    requires FreshStart(st, items)
    ensures forall y, z ::
      y in items && y.data.itemType in StoryTypes && IsValid(y) && ReachedIn(y.kids, z) && Unwritten(st, z) ==>
      StoryLink(Persist(c, st, items), y, z)
    ensures forall q, z ::
      ReachedIn(items, q) && q.data.itemType == Comment && IsValid(q) && z in q.kids && Unwritten(st, z) ==>
      ParentLink(Persist(c, st, items), q, z)
  {
    forall y, z | y in items && y.data.itemType in StoryTypes && IsValid(y) && ReachedIn(y.kids, z) && Unwritten(st, z) {
      StoryLinked(c, st, items, y, z);
    }
    forall q, z | ReachedIn(items, q) && q.data.itemType == Comment && IsValid(q) && z in q.kids && Unwritten(st, z) {
      ParentLinked(c, st, items, q, z);
    }
  }
}
