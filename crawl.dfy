/**
 * `fetchStoriesWithCommentsById` (api/src/services/item-fetch.service.ts,
 * src/services/item-fetch.service.ts): crawl each requested story with all its replies,
 * fetch and upsert every author, and hand the crawled forest to a fresh persister.
 *
 * The remote API is the pair of parameters `fetch` (items) and `fetchUser` (users); the
 * user table is the parameter `upsertUsers`, which returns the stored `(id, username)`
 * rows for a list of fetched users.
 */
module StoryCrawl {
  import opened Wrappers
  import opened Editions
  import opened Items
  import opened Settled
  import opened ItemFetch
  import opened ItemPersist
  import SS = StoryService
  import CS = CommentService

  /** A Hacker News user as the remote API serves it (`id` is the handle). */
  datatype HnUser = HnUser(id: string, created: int, karma: int, about: Option<string>)

  /** A stored user: the internal id and the handle. */
  datatype UserRow = UserRow(id: int, username: string)

  /** What a successful call returns: the crawled forest and its number of nodes. */
  datatype Crawled = Crawled(stories: seq<Item>, totalItems: int)

  /** The error the api edition throws when the user table did not take every fetched user. */
  const UpsertUsersFailed: string := "Failed to upsert all users"

  /** The trees of the requested stories whose crawl succeeded, in request order. */
  function CrawledStories(fetch: int -> Option<RawItem>, ids: seq<int>, fuel: nat): seq<Item> {
    FulfilledValues(Crawl(fetch, ids, fuel))
  }

  /** The settled outcome of fetching one user; a failure carries the handle. */
  function FetchUserOutcome(fetchUser: Option<string> -> Option<HnUser>, handle: Option<string>): Settled<HnUser, Option<string>> {
    match fetchUser(handle)
    case Some(u) => Fulfilled(u)
    case None => Rejected(handle)
  }

  /** `fetchUsers`: the users whose fetch succeeded, in handle order. */
  function FetchedUsers(fetchUser: Option<string> -> Option<HnUser>, handles: seq<Option<string>>): (r: seq<HnUser>)
    ensures forall u :: u in r <==> exists i :: 0 <= i < |handles| && fetchUser(handles[i]) == Some(u)
  {
    var outcomes := seq(|handles|, i requires 0 <= i < |handles| => FetchUserOutcome(fetchUser, handles[i]));
    var r := FulfilledValues(outcomes);
    forall u ensures u in r <==> exists i :: 0 <= i < |handles| && fetchUser(handles[i]) == Some(u) {
      if u in r {
        var i :| 0 <= i < |outcomes| && outcomes[i] == Fulfilled(u);
        assert fetchUser(handles[i]) == Some(u);
      }
      if exists i :: 0 <= i < |handles| && fetchUser(handles[i]) == Some(u) {
        var i :| 0 <= i < |handles| && fetchUser(handles[i]) == Some(u);
        assert outcomes[i] == Fulfilled(u);
      }
    }
    r
  }

  /** Some stored row carries the handle `u`. */
  predicate Named(rows: seq<UserRow>, u: string) {
    exists i :: 0 <= i < |rows| && rows[i].username == u
  }

  /** No later row carries the handle of row `i`. */
  predicate LastNamed(rows: seq<UserRow>, i: int)
    requires 0 <= i < |rows|
  {
    forall j :: i < j < |rows| ==> rows[j].username != rows[i].username
  }

  /** `userMap.set(user.username, user.id)` for each stored row in turn. */
  function UserMapOf(rows: seq<UserRow>): map<string, int>
    decreases |rows|
  {
    if rows == [] then map[]
    else UserMapOf(rows[..|rows| - 1])[rows[|rows| - 1].username := rows[|rows| - 1].id]
  }

  /**
   * The user map holds the handles of the stored rows and no others, and maps each to the
   * id of the last row carrying it.
   */
  lemma {:induction false} UserMapFacts(rows: seq<UserRow>)
    ensures forall u :: u in UserMapOf(rows) ==> Named(rows, u)
    ensures forall i :: 0 <= i < |rows| ==> rows[i].username in UserMapOf(rows)
    ensures forall i :: 0 <= i < |rows| && LastNamed(rows, i) ==> UserMapOf(rows)[rows[i].username] == rows[i].id
    decreases |rows|
  {
    if rows != [] {
      var init := rows[..|rows| - 1];
      var last := rows[|rows| - 1];
      UserMapFacts(init);
      var m := UserMapOf(init);
      forall u | Named(init, u) ensures Named(rows, u) {
        var i :| 0 <= i < |init| && init[i].username == u;
        assert rows[i] == init[i];
      }
      assert Named(rows, last.username);
      forall i | 0 <= i < |init| ensures rows[i].username in m {
        assert init[i] == rows[i];
      }
      forall i | 0 <= i < |rows| && LastNamed(rows, i)
        ensures UserMapOf(rows)[rows[i].username] == rows[i].id
      {
        if i < |init| {
          assert init[i] == rows[i];
          assert rows[i].username != last.username;
          forall j | i < j < |init| ensures init[j].username != init[i].username {
            assert init[j] == rows[j];
          }
        }
      }
    }
  }

  /** The persister state a fresh service starts from, over the current tables. */
  function FreshState(stories: SS.StoryTable, comments: CS.CommentTable): PState {
    PState(map[], map[], map[], stories, comments)
  }

  /**
   * `fetchStoriesWithCommentsById`: crawl, collect the authors, fetch and upsert them,
   * and, unless the api edition's count check fails, persist the crawled forest.
   */
  method FetchStoriesWithCommentsById(
    e: Edition, fetch: int -> Option<RawItem>, fetchUser: Option<string> -> Option<HnUser>,
    upsertUsers: seq<HnUser> -> seq<UserRow>, fuel: nat, now: int, storyIds: seq<int>,
    stories: SS.StoryStore, comments: CS.CommentStore)
    returns (r: Result<Crawled, string>)
    requires stories.Valid() && comments.Valid()
    modifies stories, comments
    ensures stories.Valid() && comments.Valid()
    ensures var ts := CrawledStories(fetch, storyIds, fuel);
      var users := FetchedUsers(fetchUser, AddAll([], Authors(ts)));
      var rows := upsertUsers(users);
      (r.Err? <==> ChecksUserCount(e) && |rows| != |users|)
      && (r.Err? ==> r.error == UpsertUsersFailed
                     && stories.table == old(stories.table) && comments.table == old(comments.table))
      && (r.Ok? ==> r.value == Crawled(ts, ForestSize(ts))
                    && var after := Persist(Ctx(e, UserMapOf(rows), now), FreshState(old(stories.table), old(comments.table)), ts);
                       stories.table == after.stories && comments.table == after.comments)
  {
    var fulfilled := CrawledStories(fetch, storyIds, fuel);
    var handles := ExtractUserIds(fulfilled);
    var users := FetchedUsers(fetchUser, handles);
    var usersWithIds := upsertUsers(users);
    if ChecksUserCount(e) && |usersWithIds| != |users| {
      return Err(UpsertUsersFailed);
    }
    var userMap := BuildUserMap(usersWithIds);
    var totalItems := ExtractTotalItems(fulfilled, 0);
    var persister := new ItemPersister(e, userMap, now, stories, comments);
    persister.PersistItems(fulfilled);
    return Ok(Crawled(fulfilled, totalItems));
  }

  /** The `forEach` that fills the user map from the stored rows. */
  method BuildUserMap(rows: seq<UserRow>) returns (userMap: map<string, int>)
    ensures userMap == UserMapOf(rows)
  {
    userMap := map[];
    for i := 0 to |rows|
      invariant userMap == UserMapOf(rows[..i])
    {
      assert rows[..i + 1][..i] == rows[..i];
      userMap := userMap[rows[i].username := rows[i].id];
    }
    assert rows[..|rows|] == rows;
  }

  /**
   * The crawled forest holds exactly the trees of the requested stories whose crawl
   * succeeded, each a faithful copy of what the remote API serves under a requested id.
   */
  lemma CrawledAreMirrors(fetch: int -> Option<RawItem>, ids: seq<int>, fuel: nat, t: Item)
    ensures t in CrawledStories(fetch, ids, fuel) <==> exists i :: 0 <= i < |ids| && CrawlOne(fetch, ids[i], fuel) == Fulfilled(t)
    ensures t in CrawledStories(fetch, ids, fuel) ==> exists i :: 0 <= i < |ids| && Mirrors(fetch, ids[i], t)
  {
    var rs := Crawl(fetch, ids, fuel);
    if t in CrawledStories(fetch, ids, fuel) {
      var i :| 0 <= i < |rs| && rs[i] == Fulfilled(t);
      assert CrawlOne(fetch, ids[i], fuel) == Fulfilled(t);
    }
    if exists i :: 0 <= i < |ids| && CrawlOne(fetch, ids[i], fuel) == Fulfilled(t) {
      var i :| 0 <= i < |ids| && CrawlOne(fetch, ids[i], fuel) == Fulfilled(t);
      assert rs[i] == Fulfilled(t);
    }
  }

  /** When every requested story crawls, none is dropped and the request order is kept. */
  lemma AllCrawled(fetch: int -> Option<RawItem>, ids: seq<int>, fuel: nat)
    requires forall i :: 0 <= i < |ids| ==> CrawlOne(fetch, ids[i], fuel).Fulfilled?
    ensures |CrawledStories(fetch, ids, fuel)| == |ids|
    ensures forall i :: 0 <= i < |ids| ==> CrawledStories(fetch, ids, fuel)[i] == CrawlOne(fetch, ids[i], fuel).value
  {
    NoRejections(Crawl(fetch, ids, fuel));
  }

  /**
   * Persisting a forest from a fresh service adds to the story table exactly the stories,
   * jobs and polls the descent reaches, and to the comment table exactly the comments it
   * reaches; nothing beneath a deleted or authorless item is written.
   */
  lemma PersistedRows(c: Ctx, stories: SS.StoryTable, comments: CS.CommentTable, ts: seq<Item>)
    ensures var after := Persist(c, FreshState(stories, comments), ts);
      (forall h :: h in after.stories.rows <==> h in stories.rows || h in Reached(ts, StoryTypes))
      && (forall h :: h in after.comments.rows <==> h in comments.rows || h in Reached(ts, CommentTypes))
  {
    PersistWrites(c, FreshState(stories, comments), ts);
  }
}
