/**
 * The `story` table and `StoryService` (api/src/services/story.service.ts,
 * src/services/story.service.ts): the keyed upsert used by the persister and the two
 * read queries of the HTTP layer, written over tables held as values.
 *
 * The table is a `KeyedTable.Table` filed by the external id `hnId`.
 */
module StoryService {
  import opened Wrappers
  import opened Editions
  import opened Items
  import opened TopStories
  import opened Ordering
  import opened KeyedTable

  /**
   * The columns of a `story` row other than the identity and `hn_id`, which is also what one
   * row of the upsert's `VALUES` list supplies. Times are milliseconds since the epoch.
   */
  datatype StoryColumns = StoryColumns(
    title: Option<string>,
    url: Option<string>,
    text: Option<string>,
    dead: bool,
    score: int,
    descendants: int,
    userId: Option<int>,
    storyType: ItemType,
    createdAt: int,
    deletedAt: Option<int>)

  type StoryTable = Table<StoryColumns>
  type StoryInsert = Insert<StoryColumns>

  /** A new row stores the inserted columns as they are. */
  function NewStory(c: StoryColumns): StoryColumns {
    c
  }

  /**
   * The `ON CONFLICT (hn_id)` update of an existing row. The api edition lists the columns
   * it sets (everything but `storyType`); the src edition merges every inserted column, and
   * does not insert `text`, so a stored `text` survives.
   */
  function OnConflict(e: Edition, s: StoryColumns, ins: StoryColumns): StoryColumns {
    match e
    case Api =>
      s.(title := ins.title, dead := ins.dead, descendants := ins.descendants, score := ins.score,
         text := ins.text, url := ins.url, userId := ins.userId, createdAt := ins.createdAt,
         deletedAt := ins.deletedAt)
    case Src =>
      s.(title := ins.title, url := ins.url, dead := ins.dead, score := ins.score,
         descendants := ins.descendants, userId := ins.userId, storyType := ins.storyType,
         createdAt := ins.createdAt, deletedAt := ins.deletedAt)
  }

  function Conflict(e: Edition): (StoryColumns, StoryColumns) -> StoryColumns {
    (s, ins) => OnConflict(e, s, ins)
  }

  /**
   * An update on conflict is the same as inserting the row afresh, except that the api
   * edition keeps the stored `storyType` and the src edition keeps the stored `text`.
   */
  lemma ConflictIsReinsert(e: Edition, s: StoryColumns, ins: StoryColumns)
    ensures e == Api ==> OnConflict(e, s, ins) == ins.(storyType := s.storyType)
    ensures e == Src ==> OnConflict(e, s, ins) == ins.(text := s.text)
  {
  }

  /** `upsertStories` over the same list twice leaves the rows as running it once. */
  lemma {:induction false} UpsertStoriesIdempotent(e: Edition, tb: StoryTable, rows: seq<StoryInsert>)
    requires DistinctKeys(rows)
    ensures var once := UpsertAll(tb, rows, NewStory, Conflict(e)).0;
      UpsertAll(once, rows, NewStory, Conflict(e)).0.rows == once.rows
  {
    forall b: Option<Stored<StoryColumns>>, c: StoryColumns
      ensures Conflict(e)(Merge(b, c, NewStory, Conflict(e)), c) == Merge(b, c, NewStory, Conflict(e))
    {
    }
    UpsertAllIdempotent(tb, rows, NewStory, Conflict(e));
  }

  // ---------------------------------------------------------------------------------------
  // Read queries

  /** One entry of the story list (`author` is the selected `by`). `time` is milliseconds (api) or whole seconds (src). */
  datatype StoryListing = StoryListing(
    id: int, author: string, url: Option<string>, title: Option<string>,
    score: int, descendants: int, time: int)

  /** A story list entry tagged with its rank, the `order` of its `top_story` row. */
  datatype RankedListing = RankedListing(order: int, listing: StoryListing)

  /** The `time` column the list query selects. */
  function ListingTime(e: Edition, createdAt: int): int {
    match e
    case Api => createdAt
    case Src => createdAt / 1000
  }

  /**
   * The ranking row joins a live story whose author is in the user table: the inner
   * joins hold, the story is not dead and not deleted, and (api only) the row belongs to
   * the requested category.
   */
  predicate Qualifies(e: Edition, t: StorySortType, ts: TopStoryRow, tb: StoryTable, users: map<int, string>) {
    ts.hnId in tb.rows
    && tb.rows[ts.hnId].data.userId.Some? && tb.rows[ts.hnId].data.userId.value in users
    && !tb.rows[ts.hnId].data.dead
    && tb.rows[ts.hnId].data.deletedAt.None?
    && (e == Api ==> ts.sortType == t)
  }

  function Entry(e: Edition, ts: TopStoryRow, tb: StoryTable, users: map<int, string>): RankedListing
    requires ts.hnId in tb.rows && tb.rows[ts.hnId].data.userId.Some? && tb.rows[ts.hnId].data.userId.value in users
  {
    var s := tb.rows[ts.hnId].data;
    RankedListing(ts.order, StoryListing(ts.hnId, users[s.userId.value], s.url, s.title, s.score,
                                         s.descendants, ListingTime(e, s.createdAt)))
  }

  /** The ranking rows that survive the joins and filters, in ranking-table order. */
  function Visible(e: Edition, t: StorySortType, ranks: seq<TopStoryRow>, tb: StoryTable, users: map<int, string>): (r: seq<TopStoryRow>)
    ensures |r| <= |ranks|
    ensures forall x :: x in r <==> x in ranks && Qualifies(e, t, x, tb, users)
  {
    if ranks == [] then []
    else
      (if Qualifies(e, t, ranks[0], tb, users) then [ranks[0]] else []) + Visible(e, t, ranks[1..], tb, users)
  }

  /** The joined and filtered rows, in ranking-table order. */
  function Candidates(e: Edition, t: StorySortType, ranks: seq<TopStoryRow>, tb: StoryTable, users: map<int, string>): (r: seq<RankedListing>)
    ensures |r| == |Visible(e, t, ranks, tb, users)|
  {
    var v := Visible(e, t, ranks, tb, users);
    assert forall i :: 0 <= i < |v| ==> v[i] in v && Qualifies(e, t, v[i], tb, users);
    seq(|v|, i requires 0 <= i < |v| => Entry(e, v[i], tb, users))
  }

  function RankOf(x: RankedListing): int {
    x.order
  }

  /** `ORDER BY ts.order` of the candidates: sorted by rank, holding exactly the candidates. */
  function Ranking(e: Edition, t: StorySortType, ranks: seq<TopStoryRow>, tb: StoryTable, users: map<int, string>): (r: seq<RankedListing>)
    ensures forall i, j :: 0 <= i < j < |r| ==> r[i].order <= r[j].order
    ensures multiset(r) == multiset(Candidates(e, t, ranks, tb, users))
  {
    SortBy(Candidates(e, t, ranks, tb, users), RankOf)
  }

  /**
   * `getStories`: the page `LIMIT limit OFFSET offset` of the ranking. The api edition
   * lists one category; the src edition has no category filter.
   */
  function GetStories(e: Edition, t: StorySortType, ranks: seq<TopStoryRow>, tb: StoryTable,
                      users: map<int, string>, limit: nat, offset: nat): (r: seq<StoryListing>)
    ensures |r| <= limit
    ensures offset <= |Ranking(e, t, ranks, tb, users)| ==>
      |r| == if |Ranking(e, t, ranks, tb, users)| - offset < limit then |Ranking(e, t, ranks, tb, users)| - offset else limit
    ensures forall i :: 0 <= i < |r| ==>
      offset + i < |Ranking(e, t, ranks, tb, users)| && r[i] == Ranking(e, t, ranks, tb, users)[offset + i].listing
  {
    var page := Slice(Ranking(e, t, ranks, tb, users), offset, limit);
    seq(|page|, i requires 0 <= i < |page| => page[i].listing)
  }

  /** Every listed story is live and, in the api edition, ranked in the requested category. */
  lemma ListedStoriesQualify(e: Edition, t: StorySortType, ranks: seq<TopStoryRow>, tb: StoryTable,
                             users: map<int, string>, limit: nat, offset: nat, k: int)
    requires 0 <= k < |GetStories(e, t, ranks, tb, users, limit, offset)|
    ensures exists x :: (x in ranks && Qualifies(e, t, x, tb, users) &&
      GetStories(e, t, ranks, tb, users, limit, offset)[k] == Entry(e, x, tb, users).listing)
  {
    var rk := Ranking(e, t, ranks, tb, users);
    var c := Candidates(e, t, ranks, tb, users);
    var v := Visible(e, t, ranks, tb, users);
    var y := rk[offset + k];
    assert y in multiset(rk);
    assert y in c;
    var j :| 0 <= j < |c| && c[j] == y;
    assert v[j] in v;
  }

  /** A story that a ranking row can see is in the ranking: the filters drop nothing else. */
  lemma QualifyingStoriesRanked(e: Edition, t: StorySortType, ranks: seq<TopStoryRow>, tb: StoryTable,
                                users: map<int, string>, x: TopStoryRow)
    requires x in ranks && Qualifies(e, t, x, tb, users)
    ensures Entry(e, x, tb, users) in Ranking(e, t, ranks, tb, users)
  {
    var v := Visible(e, t, ranks, tb, users);
    var c := Candidates(e, t, ranks, tb, users);
    var j :| 0 <= j < |v| && v[j] == x;
    assert c[j] == Entry(e, x, tb, users);
    assert Entry(e, x, tb, users) in multiset(c);
    assert Entry(e, x, tb, users) in multiset(Ranking(e, t, ranks, tb, users));
  }

  /**
   * The detail view of one story. The src edition selects neither `score` nor `text`;
   * those are `None` there.
   */
  datatype StoryDetail = StoryDetail(
    id: int, hnId: int, title: Option<string>, url: Option<string>, score: Option<int>,
    text: Option<string>, descendants: int, author: string, time: int)

  /**
   * `getStoryByHnId`: the one story with that external id, joined with its author; absent
   * when there is no such story or its author is not in the user table.
   */
  function GetStoryByHnId(e: Edition, tb: StoryTable, users: map<int, string>, hnId: int): (r: Option<StoryDetail>)
    ensures r.Some? <==> hnId in tb.rows && tb.rows[hnId].data.userId.Some? && tb.rows[hnId].data.userId.value in users
    ensures r.Some? ==> (r.value.id == tb.rows[hnId].id && r.value.hnId == hnId &&
      r.value.author == users[tb.rows[hnId].data.userId.value] &&
      r.value.descendants == tb.rows[hnId].data.descendants)
    ensures r.Some? && e == Src ==> r.value.score.None? && r.value.text.None?
  {
    if hnId in tb.rows && tb.rows[hnId].data.userId.Some? && tb.rows[hnId].data.userId.value in users then
      var s := tb.rows[hnId].data;
      Some(StoryDetail(tb.rows[hnId].id, hnId, s.title, s.url,
                       if e == Api then Some(s.score) else None,
                       if e == Api then s.text else None,
                       s.descendants, users[s.userId.value], s.createdAt))
    else None
  }

  /** The story table as the store the persister writes through. */
  class StoryStore {
    var table: StoryTable

    ghost predicate Valid()
      reads this
    {
      KeyedTable.TableValid(table)
    }

    constructor ()
      ensures Valid() && table.rows == map[]
    {
      table := Table(map[], 1);
    }

    /** `upsertStories`: one statement over `rows`, returning a key per row. */
    method UpsertStories(e: Edition, rows: seq<StoryInsert>) returns (keys: seq<Key>)
      requires Valid()
      modifies this
      ensures Valid()
      ensures (table, keys) == UpsertAll(old(table), rows, NewStory, Conflict(e))
    {
      UpsertAllValid(table, rows, NewStory, Conflict(e));
      var r := UpsertAll(table, rows, NewStory, Conflict(e));
      table, keys := r.0, r.1;
    }
  }
}
