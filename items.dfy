/**
 * Items of the remote content graph (`HackerNewsItem`, `HackerNewsItemWithKids` in
 * api/src/services/item-fetch.service.ts) and the forest functions shared by the crawler,
 * the user resolver and the persister.
 */
module Items {
  import opened Wrappers

  /** The `type` field of an item. */
  datatype ItemType = Story | Job | Poll | PollOpt | Comment

  /**
   * Every field of an item except its children (`author` is the `by` field). Optional fields are `Option`s;
   * `deleted` is `true` only when the item says so (an absent flag reads as `false`).
   */
  datatype ItemData = ItemData(
    id: int,
    deleted: bool,
    itemType: ItemType,
    author: Option<string>,
    time: int,
    text: Option<string>,
    dead: Option<bool>,
    parent: Option<int>,
    url: Option<string>,
    score: Option<int>,
    title: Option<string>,
    descendants: Option<int>)

  /** An item as the remote API returns it: children are external ids. */
  datatype RawItem = RawItem(data: ItemData, kids: seq<int>)

  /** An item whose children have been fetched and attached in their original order. */
  datatype Item = Item(data: ItemData, kids: seq<Item>)

  /** Number of nodes of a forest. */
  function ForestSize(items: seq<Item>): nat {
    if items == [] then 0 else 1 + ForestSize(items[0].kids) + ForestSize(items[1..])
  }

  /** Preorder list of the `by` fields of every node of a forest (absent handles included). */
  function Authors(items: seq<Item>): seq<Option<string>> {
    if items == [] then [] else [items[0].data.author] + Authors(items[0].kids) + Authors(items[1..])
  }

  /** An item whose children are carried to the next level: not deleted and with an author. */
  predicate IsValid(x: Item) {
    !x.data.deleted && x.data.author.Some?
  }

  /** The items of one `type`, in their original order (one bucket of the grouping by type). */
  function OfType(items: seq<Item>, t: ItemType): (r: seq<Item>)
    ensures |r| <= |items|
    ensures forall x :: x in r <==> x in items && x.data.itemType == t
  {
    if items == [] then []
    else (if items[0].data.itemType == t then [items[0]] else []) + OfType(items[1..], t)
  }

  /**
   * The keys of the grouping of items by type, in the order the grouping lists them:
   * each type once, in the order of its first occurrence.
   */
  function GroupTypes(items: seq<Item>): (r: seq<ItemType>)
    ensures forall i, j :: 0 <= i < j < |r| ==> r[i] != r[j]
    ensures forall t :: t in r <==> exists x :: x in items && x.data.itemType == t
  {
    if items == [] then []
    else
      var g := GroupTypes(items[..|items| - 1]);
      assert forall x :: x in items <==> x in items[..|items| - 1] || x == items[|items| - 1];
      if items[|items| - 1].data.itemType in g then g else g + [items[|items| - 1].data.itemType]
  }

  /** The items that are not deleted and have an author, in their original order. */
  function ValidItems(items: seq<Item>): (r: seq<Item>)
    ensures |r| <= |items|
    ensures forall x :: x in r <==> x in items && IsValid(x)
  {
    if items == [] then []
    else (if IsValid(items[0]) then [items[0]] else []) + ValidItems(items[1..])
  }

  /** The children of a list of items, concatenated in order. */
  function KidsOf(items: seq<Item>): seq<Item> {
    if items == [] then [] else items[0].kids + KidsOf(items[1..])
  }

  /** The next level the persister descends into after writing a group. */
  function NextLevel(group: seq<Item>): seq<Item> {
    KidsOf(ValidItems(group))
  }

  lemma {:induction false} ForestSizeAppend(a: seq<Item>, b: seq<Item>)
    ensures ForestSize(a + b) == ForestSize(a) + ForestSize(b)
  {
    if a == [] {
      assert a + b == b;
    } else {
      assert (a + b)[0] == a[0];
      assert (a + b)[1..] == a[1..] + b;
      ForestSizeAppend(a[1..], b);
    }
  }

  lemma {:induction false} KidsOfAppend(a: seq<Item>, b: seq<Item>)
    ensures KidsOf(a + b) == KidsOf(a) + KidsOf(b)
  {
    if a == [] {
      assert a + b == b;
    } else {
      assert (a + b)[0] == a[0];
      assert (a + b)[1..] == a[1..] + b;
      KidsOfAppend(a[1..], b);
    }
  }

  /** A forest has one node per item plus the nodes of all their children. */
  lemma {:induction false} ForestSizeSplit(items: seq<Item>)
    ensures ForestSize(items) == |items| + ForestSize(KidsOf(items))
  {
    if items != [] {
      ForestSizeSplit(items[1..]);
      ForestSizeAppend(items[0].kids, KidsOf(items[1..]));
    }
  }

  lemma {:induction false} ForestSizeOfType(items: seq<Item>, t: ItemType)
    ensures ForestSize(OfType(items, t)) <= ForestSize(items)
  {
    if items != [] {
      ForestSizeOfType(items[1..], t);
      var head := if items[0].data.itemType == t then [items[0]] else [];
      ForestSizeAppend(head, OfType(items[1..], t));
      if head != [] {
        assert head[1..] == [];
      }
    }
  }

  lemma {:induction false} ForestSizeValid(items: seq<Item>)
    ensures ForestSize(ValidItems(items)) <= ForestSize(items)
  {
    if items != [] {
      ForestSizeValid(items[1..]);
      var head := if IsValid(items[0]) then [items[0]] else [];
      ForestSizeAppend(head, ValidItems(items[1..]));
      if head != [] {
        assert head[1..] == [];
      }
    }
  }

  /**
   * The level below a non-empty group is strictly smaller than the forest the group was
   * taken from, so the level-by-level descent of the persister terminates.
   */
  lemma NextLevelSmaller(items: seq<Item>, t: ItemType)
    requires NextLevel(OfType(items, t)) != []
    ensures ForestSize(NextLevel(OfType(items, t))) < ForestSize(items)
  {
    var g := OfType(items, t);
    var v := ValidItems(g);
    ForestSizeOfType(items, t);
    ForestSizeValid(g);
    ForestSizeSplit(v);
    assert v != [];
  }
}
