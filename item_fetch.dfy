/**
 * The crawling half of `ItemFetchService` (api/src/services/item-fetch.service.ts and
 * src/services/item-fetch.service.ts): the recursive fetch of a story with all of its
 * replies, the partition of the per-story outcomes, the author and node counting walks,
 * and the retry back-off of the src edition's HTTP client.
 *
 * The remote API is the parameter `fetch`: `fetch(id)` is the item with that id, or `None`
 * when the request fails (after the client's own retries) or the item cannot be read.
 */
module ItemFetch {
  import opened Wrappers
  import opened Items
  import opened Settled

  /**
   * Fetches an item and, when it lists children, all of them recursively; the result
   * fails as soon as one child fails. `fuel` bounds the depth of the descent.
   */
  function FetchTree(fetch: int -> Option<RawItem>, id: int, fuel: nat): Option<Item>
    decreases fuel, 0, 0
  {
    if fuel == 0 then None
    else
      match fetch(id)
      case None => None
      case Some(raw) =>
        if raw.kids == [] then Some(Item(raw.data, []))
        else
          match FetchForest(fetch, raw.kids, fuel - 1)
          case None => None
          case Some(ks) => Some(Item(raw.data, ks))
  }

  /** Fetches a list of items as one unit: all of them, in order, or failure. */
  function FetchForest(fetch: int -> Option<RawItem>, ids: seq<int>, fuel: nat): Option<seq<Item>>
    decreases fuel, 1, |ids|
  {
    if ids == [] then Some([])
    else
      match FetchTree(fetch, ids[0], fuel)
      case None => None
      case Some(t) =>
        match FetchForest(fetch, ids[1..], fuel)
        case None => None
        case Some(ts) => Some([t] + ts)
  }

  /**
   * `t` is exactly what the remote API holds under `id`: the same fields, and one child
   * per listed child id, each mirroring its own id, in the listed order.
   */
  ghost predicate Mirrors(fetch: int -> Option<RawItem>, id: int, t: Item)
    decreases t
  {
    fetch(id).Some? && fetch(id).value.data == t.data
    && |fetch(id).value.kids| == |t.kids|
    && forall i :: 0 <= i < |t.kids| ==> Mirrors(fetch, fetch(id).value.kids[i], t.kids[i])
  }

  /** Number of levels of a tree (a leaf has one). */
  function Depth(t: Item): nat {
    1 + ForestDepth(t.kids)
  }

  function ForestDepth(ts: seq<Item>): nat {
    if ts == [] then 0
    else
      var d := 1 + ForestDepth(ts[0].kids);
      var e := ForestDepth(ts[1..]);
      if d < e then e else d
  }

  /** A fetched tree mirrors the remote API. */
  lemma {:induction false} FetchTreeSound(fetch: int -> Option<RawItem>, id: int, fuel: nat)
    requires FetchTree(fetch, id, fuel).Some?
    ensures Mirrors(fetch, id, FetchTree(fetch, id, fuel).value)
    decreases fuel, 0, 0
  {
    var raw := fetch(id).value;
    if raw.kids != [] {
      FetchForestSound(fetch, raw.kids, fuel - 1);
    }
  }

  lemma {:induction false} FetchForestSound(fetch: int -> Option<RawItem>, ids: seq<int>, fuel: nat)
    requires FetchForest(fetch, ids, fuel).Some?
    ensures |FetchForest(fetch, ids, fuel).value| == |ids|
    ensures forall i :: 0 <= i < |ids| ==> Mirrors(fetch, ids[i], FetchForest(fetch, ids, fuel).value[i])
    decreases fuel, 1, |ids|
  {
    if ids != [] {
      FetchTreeSound(fetch, ids[0], fuel);
      FetchForestSound(fetch, ids[1..], fuel);
      var ts := FetchForest(fetch, ids, fuel).value;
      forall i | 0 <= i < |ids|
        ensures Mirrors(fetch, ids[i], ts[i])
      {
        if i > 0 {
          assert ids[1..][i - 1] == ids[i];
        }
      }
    }
  }

  lemma {:induction false} ForestDepthBound(ts: seq<Item>, i: int)
    requires 0 <= i < |ts|
    ensures Depth(ts[i]) <= ForestDepth(ts)
  {
    if i > 0 {
      ForestDepthBound(ts[1..], i - 1);
      assert ts[1..][i - 1] == ts[i];
    }
  }

  /** Enough fuel fetches every tree the remote API holds, exactly. */
  lemma {:induction false} FetchTreeComplete(fetch: int -> Option<RawItem>, id: int, t: Item, fuel: nat)
    requires Mirrors(fetch, id, t) && Depth(t) <= fuel
    ensures FetchTree(fetch, id, fuel) == Some(t)
    decreases fuel, 0, 0
  {
    var raw := fetch(id).value;
    if raw.kids != [] {
      FetchForestComplete(fetch, raw.kids, t.kids, fuel - 1);
    }
  }

  lemma {:induction false} FetchForestComplete(fetch: int -> Option<RawItem>, ids: seq<int>, ts: seq<Item>, fuel: nat)
    requires |ids| == |ts|
    requires forall i :: 0 <= i < |ids| ==> Mirrors(fetch, ids[i], ts[i])
    requires ForestDepth(ts) <= fuel
    ensures FetchForest(fetch, ids, fuel) == Some(ts)
    decreases fuel, 1, |ids|
  {
    if ids != [] {
      ForestDepthBound(ts, 0);
      FetchTreeComplete(fetch, ids[0], ts[0], fuel);
      forall i | 0 <= i < |ids[1..]|
        ensures Mirrors(fetch, ids[1..][i], ts[1..][i])
      {
        assert ids[1..][i] == ids[i + 1];
        assert ts[1..][i] == ts[i + 1];
      }
      FetchForestComplete(fetch, ids[1..], ts[1..], fuel);
      assert [ts[0]] + ts[1..] == ts;
    }
  }

  /** A list of siblings fails exactly when one of them fails. */
  lemma {:induction false} FetchForestFails(fetch: int -> Option<RawItem>, ids: seq<int>, fuel: nat)
    ensures FetchForest(fetch, ids, fuel).None? <==>
            exists i :: 0 <= i < |ids| && FetchTree(fetch, ids[i], fuel).None?
    decreases |ids|
  {
    if ids != [] {
      FetchForestFails(fetch, ids[1..], fuel);
      if FetchForest(fetch, ids[1..], fuel).None? {
        var j :| 0 <= j < |ids[1..]| && FetchTree(fetch, ids[1..][j], fuel).None?;
        assert FetchTree(fetch, ids[j + 1], fuel).None?;
      }
      if exists i :: 0 <= i < |ids| && FetchTree(fetch, ids[i], fuel).None? {
        var i :| 0 <= i < |ids| && FetchTree(fetch, ids[i], fuel).None?;
        if i > 0 {
          assert ids[1..][i - 1] == ids[i];
        }
      }
    }
  }

  /** The settled outcome of crawling one story; a failure carries the story id. */
  function CrawlOne(fetch: int -> Option<RawItem>, id: int, fuel: nat): (r: Settled<Item, int>)
    ensures r.Fulfilled? ==> Mirrors(fetch, id, r.value)
    ensures r.Rejected? ==> r.reason == id
  {
    match FetchTree(fetch, id, fuel)
    case Some(t) =>
      FetchTreeSound(fetch, id, fuel);
      Fulfilled(t)
    case None => Rejected(id)
  }

  /** A story whose whole tree the remote API serves, within the depth bound, is crawled as is. */
  lemma CrawlOneComplete(fetch: int -> Option<RawItem>, id: int, t: Item, fuel: nat)
    requires Mirrors(fetch, id, t) && Depth(t) <= fuel
    ensures CrawlOne(fetch, id, fuel) == Fulfilled(t)
  {
    FetchTreeComplete(fetch, id, t, fuel);
  }

  /**
   * The per-story outcomes, one per requested id, in the requested order: a fulfilled
   * outcome is a faithful copy of the tree served under its id, and a rejected one names it.
   */
  function Crawl(fetch: int -> Option<RawItem>, ids: seq<int>, fuel: nat): (r: seq<Settled<Item, int>>)
    ensures |r| == |ids|
    ensures forall i :: 0 <= i < |ids| && r[i].Fulfilled? ==> Mirrors(fetch, ids[i], r[i].value)
    ensures forall i :: 0 <= i < |ids| && r[i].Rejected? ==> r[i].reason == ids[i]
  {
    seq(|ids|, i requires 0 <= i < |ids| => CrawlOne(fetch, ids[i], fuel))
  }

  /** Every requested story whose whole tree is served within the depth bound is fulfilled with it. */
  lemma CrawlComplete(fetch: int -> Option<RawItem>, ids: seq<int>, fuel: nat)
    ensures forall i, t :: 0 <= i < |ids| && Mirrors(fetch, ids[i], t) && Depth(t) <= fuel ==>
      Crawl(fetch, ids, fuel)[i] == Fulfilled(t)
  {
    forall i, t | 0 <= i < |ids| && Mirrors(fetch, ids[i], t) && Depth(t) <= fuel
      ensures Crawl(fetch, ids, fuel)[i] == Fulfilled(t)
    {
      CrawlOneComplete(fetch, ids[i], t, fuel);
    }
  }

  // ---------------------------------------------------------------------------------------
  // Author handles

  /**
   * Adds the elements of `s` one by one to an insertion-ordered set `acc`, skipping those
   * already present (the behaviour of a JavaScript `Set` read back as an array).
   */
  function AddAll(acc: seq<Option<string>>, s: seq<Option<string>>): (r: seq<Option<string>>)
    ensures forall x :: x in r <==> x in acc || x in s
    ensures NoDup(acc) ==> NoDup(r)
    ensures |acc| <= |r| && r[..|acc|] == acc
  {
    if s == [] then acc
    else
      var a := AddAll(acc, s[..|s| - 1]);
      assert forall x :: x in s <==> x in s[..|s| - 1] || x == s[|s| - 1];
      if s[|s| - 1] in a then a else a + [s[|s| - 1]]
  }

  lemma {:induction false} AddAllAppend(acc: seq<Option<string>>, a: seq<Option<string>>, b: seq<Option<string>>)
    ensures AddAll(acc, a + b) == AddAll(AddAll(acc, a), b)
    decreases |b|
  {
    if b == [] {
      assert a + b == a;
    } else {
      assert (a + b)[..|a + b| - 1] == a + b[..|b| - 1];
      assert (a + b)[|a + b| - 1] == b[|b| - 1];
      AddAllAppend(acc, a, b[..|b| - 1]);
    }
  }

  lemma {:induction false} AuthorsAppend(a: seq<Item>, b: seq<Item>)
    ensures Authors(a + b) == Authors(a) + Authors(b)
  {
    if a == [] {
      assert a + b == b;
    } else {
      assert (a + b)[0] == a[0];
      assert (a + b)[1..] == a[1..] + b;
      AuthorsAppend(a[1..], b);
    }
  }

  /**
   * The walk behind `extractUserIds`: visits the items in preorder and adds each `by`
   * handle to the shared set `acc`.
   */
  method CollectUserIds(items: seq<Item>, acc: seq<Option<string>>) returns (out: seq<Option<string>>)
    ensures out == AddAll(acc, Authors(items))
    decreases items
  {
    out := acc;
    var i := 0;
    while i < |items|
      invariant 0 <= i <= |items|
      invariant out == AddAll(acc, Authors(items[..i]))
    {
      var item := items[i];
      AuthorsAppend(items[..i], [item]);
      assert items[..i + 1] == items[..i] + [item];
      assert [item][1..] == [];
      assert Authors([item]) == [item.data.author] + Authors(item.kids);
      AddAllAppend(acc, Authors(items[..i]), [item.data.author] + Authors(item.kids));
      AddAllAppend(AddAll(acc, Authors(items[..i])), [item.data.author], Authors(item.kids));
      assert [item.data.author][..0] == [];
      if item.data.author !in out {
        out := out + [item.data.author];
      }
      if item.kids != [] {
        out := CollectUserIds(item.kids, out);
      }
      i := i + 1;
    }
    assert items[..|items|] == items;
  }

  /**
   * `extractUserIds`: every author handle of the forest, each exactly once, in the order
   * of first appearance in preorder.
   */
  method ExtractUserIds(items: seq<Item>) returns (ids: seq<Option<string>>)
    ensures ids == AddAll([], Authors(items))
    ensures NoDup(ids)
    ensures forall x :: x in ids <==> x in Authors(items)
  {
    ids := CollectUserIds(items, []);
  }

  /** `extractTotalItems`: `totalItems` plus the number of nodes of the forest. */
  method ExtractTotalItems(items: seq<Item>, totalItems: int) returns (r: int)
    ensures r == totalItems + ForestSize(items)
    decreases items
  {
    r := totalItems + |items|;
    var i := 0;
    while i < |items|
      invariant 0 <= i <= |items|
      invariant r == totalItems + |items| + ForestSize(KidsOf(items[..i]))
    {
      var item := items[i];
      assert items[..i + 1] == items[..i] + [item];
      KidsOfAppend(items[..i], [item]);
      assert [item][1..] == [];
      assert KidsOf([item]) == item.kids;
      ForestSizeAppend(KidsOf(items[..i]), item.kids);
      if item.kids != [] {
        var k := ExtractTotalItems(item.kids, 0);
        r := r + k;
      }
      i := i + 1;
    }
    assert items[..|items|] == items;
    ForestSizeSplit(items);
  }

  // ---------------------------------------------------------------------------------------
  // HTTP client back-off (src edition)

  /** Number of retries the src edition's HTTP client makes after a failed request. */
  const MaxRetries: nat := 3

  function Pow2(n: nat): (r: nat)
    ensures r >= 1
  {
    if n == 0 then 1 else 2 * Pow2(n - 1)
  }

  /** Delay in milliseconds before retry number `retryCount` (counted from 1). */
  function RetryDelayMs(retryCount: nat): (r: nat)
    requires retryCount >= 1
    ensures r >= 200
    ensures r % 200 == 0
  {
    200 * Pow2(retryCount - 1)
  }

  /** Each retry waits twice as long as the previous one. */
  lemma RetryDelayDoubles(retryCount: nat)
    requires retryCount >= 1
    ensures RetryDelayMs(retryCount + 1) == 2 * RetryDelayMs(retryCount)
  {
  }

  /** The three retries wait 200, 400 and 800 ms. */
  lemma RetrySchedule()
    ensures seq(MaxRetries, k requires 0 <= k < MaxRetries => RetryDelayMs(k + 1)) == [200, 400, 800]
  {
  }
}
