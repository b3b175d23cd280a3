# hn-backend ingestion core, modelled in Dafny

This project models the ingestion pipeline of `hn-backend`, a service that mirrors Hacker
News stories and their comment threads into a relational database and serves them over
HTTP. It models the pipeline's in-memory logic and the small pure utilities around it.

- **Crawler.** It fetches each requested story together with all of its replies. It
  collects every author, then fetches and upserts the users. Under the api edition's
  count check, it then hands the crawled forest to the tree persister.
- **Tree persister** (`ItemPersistService`). It writes the forest level by level. Stories
  and jobs go to the `story` table and comments to the `comment` table. Poll groups are sent
  to the `story` table too, but its `story_type` enum admits only `story` and `job`, so the
  database refuses them. Along the way
  it keeps three maps: child to root story, story external id to internal id, and comment
  external id to internal id.
- **Fetch schedule.** One open (unfinished) row is allowed per category. A finish call
  closes that row. The wait until the next fetch follows from the latest row.
- **Stores.** The keyed upsert of stories and comments, the ranked per-category
  `top_story` snapshot, and the story list and detail queries.
- **Comment view.** It nests the flat rows of the recursive comment query into a forest,
  counts replies, optionally re-sorts the roots by reply count, and provides the flat
  search view.
- **Admission gate** (`pLimit`). A FIFO queue of submitted tasks with a bound on the
  tasks running at once.
- **HTTP utilities.** Settled-result partitioning, pagination, the error-code table and
  its `{{key}}` template substitution, `HttpError` construction, the error handler's
  classification cascade, the not-found handler, and the choice of validator compiler.

The repository carries two copies of most services: `api/` (later) and `src/` (earlier).
The shared logic is modelled once, parameterised by `Editions.Edition` (`Api | Src`).
These are where the two copies differ:

- the fetch interval, 30 against 15 minutes;
- the user-count check;
- 1000-row upsert batches;
- the story-id fallback subquery;
- the columns an upsert conflict rewrites;
- the comment view's root test, reply counter and row order.

Entities that the source updates in place are classes with `modifies` clauses. The
persister, the two stores, the top-story table, the fetch-schedule table and the
admission gate are classes. Each method is proved to compute a value-level specification
function, and the properties of the source are proved as lemmas about those functions.
The database tables are values (`KeyedTable.Table`, sequences of rows). A statement is
applied row by row, in list order.

One consequence of the schema: `top_story.hn_id` is the table's whole primary key
(migrations/migrations/20240505214718_create_top_story_table.js:7). A story can therefore
be ranked in only one category at a time. `TopStories.ReplaceSnapshot` and
`TopStories.ReplaceSucceedsIff` state when the insert is refused. When it is refused, the
delete has already taken effect.

## Model

| member | source | states |
|---|---|---|
| Editions.FetchIntervalMinutes | api/src/services/item-fetch.service.ts:13 | the interval is positive: 30 minutes in the api edition, 15 in the src edition (src/services/item-fetch.service.ts:13) |
| Editions.UpsertBatchSize | api/src/services/item-persist.service.ts:36 | a batch size, when there is one, is positive: 1000 rows in the api edition, a single statement in the src edition |
| Settled.FulfilledValues | api/src/utils/promise.ts:4-6 | a value is in `fulfilled` exactly when a fulfilled outcome carries it, and the list is no longer than the input |
| Settled.RejectedReasons | api/src/utils/promise.ts:7-9 | a reason is in `rejected` exactly when a rejected outcome carries it |
| Settled.PartitionCounts | api/src/utils/promise.ts:1-12 | the two lists together are as long as the input: every outcome lands in exactly one of them (also src/utils/promise.ts) |
| Settled.PartitionAppend | api/src/utils/promise.ts:4-9 | partitioning commutes with concatenation, so both lists keep the input order |
| Settled.NoRejections | api/src/utils/promise.ts:1-12 | with no rejection, `rejected` is empty and `fulfilled` is every value, position by position |
| Items.OfType | api/src/services/item-persist.service.ts:76 | one bucket of the grouping by `type`: exactly the items of that type |
| Items.GroupTypes | api/src/services/item-persist.service.ts:76-77 | the grouping's keys: each type that occurs, exactly once |
| Items.ValidItems | api/src/services/item-persist.service.ts:92 | exactly the items that are not deleted and have a `by` |
| Items.NextLevelSmaller | api/src/services/item-persist.service.ts:93-106 | the next level of a group is a strictly smaller forest, so the descent terminates |
| ItemFetch.FetchTreeSound | api/src/services/item-fetch.service.ts:82-97 | a successful recursive fetch returns the item with each kid id replaced by its fetched subtree, same length and order, at every depth |
| ItemFetch.FetchTreeComplete | api/src/services/item-fetch.service.ts:82-97 | when every node of a tree is served, the recursive fetch returns exactly that tree (given fuel at least its depth) |
| ItemFetch.FetchForestSound | api/src/services/item-fetch.service.ts:90-92 | a successful sibling fetch returns one subtree per id, in order, each a copy of what is served |
| ItemFetch.FetchForestComplete | api/src/services/item-fetch.service.ts:90-92 | siblings that are all served come back as exactly those trees |
| ItemFetch.FetchForestFails | api/src/services/item-fetch.service.ts:90-92 | a list of siblings fails exactly when one subtree fails (`Promise.all`) |
| ItemFetch.CrawlOne | api/src/services/item-fetch.service.ts:135-139 | a crawl succeeds with a faithful copy of the tree, or is rejected naming the story id |
| ItemFetch.CrawlOneComplete | api/src/services/item-fetch.service.ts:135-139 | a story whose whole tree is served crawls successfully to that tree |
| ItemFetch.Crawl | api/src/services/item-fetch.service.ts:135-139 | one settled outcome per requested story, in request order: a fulfilled outcome is a faithful copy of the tree served under its id, a rejected one names that id |
| ItemFetch.CrawlComplete | api/src/services/item-fetch.service.ts:135-139 | every requested story whose whole tree is served within the depth bound is fulfilled with that tree |
| ItemFetch.AddAll | api/src/services/item-fetch.service.ts:113-122 | `Set.add` over a list: the result holds exactly the old and the new handles, keeps the old prefix, and stays duplicate-free |
| ItemFetch.AddAllAppend | api/src/services/item-fetch.service.ts:113-122 | adding two lists one after the other is adding their concatenation |
| ItemFetch.CollectUserIds | api/src/services/item-fetch.service.ts:113-122 | the recursive loop adds every node's `by`, in preorder, to the accumulated set |
| ItemFetch.ExtractUserIds | api/src/services/item-fetch.service.ts:113-122 | the result lists each `by` found at any depth exactly once, and nothing else (also src/services/item-fetch.service.ts:96-105) |
| ItemFetch.ExtractTotalItems | api/src/services/item-fetch.service.ts:124-132 | the count is the start value plus the number of nodes of the forest (also src/services/item-fetch.service.ts:107-115) |
| ItemFetch.RetryDelayMs | src/services/item-fetch.service.ts:42-48 | the retry delay is at least 200 ms and a multiple of 200 |
| ItemFetch.RetryDelayDoubles | src/services/item-fetch.service.ts:44-46 | each retry waits twice as long as the one before |
| ItemFetch.RetrySchedule | src/services/item-fetch.service.ts:42-48 | the three retries wait 200, 400 and 800 ms |
| StoryCrawl.FetchedUsers | api/src/services/item-fetch.service.ts:99-111 | a user is in the result exactly when the fetch for one of the handles returned it; failed fetches are dropped |
| StoryCrawl.UserMapFacts | api/src/services/item-fetch.service.ts:152-153 | the user map holds exactly the stored handles, each mapped to the id of its last row |
| StoryCrawl.BuildUserMap | api/src/services/item-fetch.service.ts:152-153 | the `forEach` loop builds exactly that map |
| StoryCrawl.FetchStoriesWithCommentsById | api/src/services/item-fetch.service.ts:134-166 | crawl survivors are kept in request order; in the api edition a user-count mismatch fails before anything is persisted and leaves both tables untouched (the src edition has no check, src/services/item-fetch.service.ts:117-145); otherwise the tables become the persister's result and the count is the forest's node count |
| StoryCrawl.CrawledAreMirrors | api/src/services/item-fetch.service.ts:134-143 | the crawled forest holds exactly the successful crawls, each a faithful copy of a requested story |
| StoryCrawl.AllCrawled | api/src/services/item-fetch.service.ts:134-143 | when every crawl succeeds, nothing is dropped and the request order is kept |
| StoryCrawl.PersistedRows | api/src/services/item-fetch.service.ts:158-159 | from a fresh persister, the story table gains exactly the reached stories, jobs and polls, and the comment table exactly the reached comments |
| FetchSchedule.InsertRows | migrations/migrations/20240501235633_create_fetch_schedule.js:17-19 | an insert is ignored while the type has an unfinished row; otherwise one open row is appended |
| FetchSchedule.FinishRows | api/src/services/item-fetch.service.ts:193-201 | finish sets `totalItems` and `finishedAt` on exactly the unfinished rows of that type, changes nothing else, and leaves none of them open |
| FetchSchedule.InsertRowsValid | migrations/migrations/20240501235633_create_fetch_schedule.js:17-19 | insert keeps the partial unique index (at most one open row per type) and leaves the type with an open row |
| FetchSchedule.FinishRowsValid | api/src/services/item-fetch.service.ts:193-201 | finish keeps the table's constraints |
| FetchSchedule.FinishTouchesAtMostOne | api/src/services/item-fetch.service.ts:194-196 | in a valid table, finish changes at most one row |
| FetchSchedule.Latest | api/src/services/item-fetch.service.ts:169-173 | the type's row with the latest `created_at`, or none exactly when the type has no row |
| FetchSchedule.Grace | api/src/services/item-fetch.service.ts:180-184 | twice the interval after an unfinished fetch, the interval after a finished one |
| FetchSchedule.TimeUntilNextFetch | api/src/services/item-fetch.service.ts:168-185 | 0 with no row; never negative; 0 exactly when the grace period has passed, otherwise exactly the time left until it does (also src/services/item-fetch.service.ts:147-164) |
| FetchSchedule.WaitBounded | api/src/services/item-fetch.service.ts:180-184 | the wait never exceeds twice the interval |
| FetchSchedule.FreshUnfinishedWait | api/src/services/item-fetch.service.ts:180-181 | straight after a fresh insert, the wait is twice the interval |
| FetchSchedule.FetchScheduleTable.Insert | api/src/services/item-fetch.service.ts:187-191 | `insertFetchSchedule` on the table: reports whether a row was added, keeps the table valid, and leaves an open row of the type |
| FetchSchedule.FetchScheduleTable.Finish | api/src/services/item-fetch.service.ts:193-201 | `finishFetchSchedule` on the table, as `FinishRows` |
| KeyedTable.UpsertOne | api/src/services/story.service.ts:19-39 | one row of the statement: the key gets stored, existing rows keep their identity, other keys are untouched, and the returned pair names the stored identity; the row draws one value from the identity sequence whether it inserts or updates (migrations/migrations/20240414022518_create_story_table.js:7) |
| KeyedTable.UpsertAll | api/src/services/story.service.ts:19-39 | one returned `(id, hnId)` per input row, each naming the identity its row holds after the row is applied |
| KeyedTable.UpsertAllFacts | api/src/services/story.service.ts:19-39 | each returned key names its row's identity in the final table; the stored keys grow by exactly the listed ones; existing rows keep their identity; unlisted rows are untouched; the identity sequence advances once per listed row |
| KeyedTable.UpsertOneValid | api/src/services/story.service.ts:19-38 | a row keeps identities distinct and drawn from the sequence |
| KeyedTable.UpsertAllValid | api/src/services/story.service.ts:19-38 | a statement keeps identities distinct and drawn from the sequence |
| KeyedTable.UpsertAllAppend | api/src/services/item-persist.service.ts:36-43 | upserting consecutive batches one statement after another equals one statement over the whole list, with the returned keys concatenated |
| KeyedTable.UpsertAllContent | api/src/services/story.service.ts:23-37 | with distinct keys, each row ends up as its insert, or as the conflict update applied to what was stored before |
| KeyedTable.NoNewRows | api/src/services/story.service.ts:23-24 | when every key is already stored, the statement adds no row and changes no stored identity, yet the identity sequence still advances once per row |
| KeyedTable.UpsertAllIdempotent | api/src/services/story.service.ts:19-39 | running the statement twice leaves the rows as running it once, when a conflict update is idempotent; the second run still advances the identity sequence once per row |
| StoryService.ConflictIsReinsert | api/src/services/story.service.ts:25-36 | an api conflict overwrites every column but `storyType`; a src merge overwrites every inserted column, so a stored `text` survives (src/services/story.service.ts:15-20) |
| StoryService.UpsertStoriesIdempotent | api/src/services/story.service.ts:19-39 | `upsertStories` twice over the same list leaves the rows as once (the identity sequence moves on) |
| StoryService.StoryStore.UpsertStories | api/src/services/story.service.ts:19-39 | the store's table and the returned keys are those of `UpsertAll` with the edition's conflict rule |
| StoryService.Visible | api/src/services/story.service.ts:7-13 | exactly the ranking rows whose story is live (not dead, not deleted), authored by a stored user and, in the api edition, of the requested category |
| StoryService.Candidates | api/src/services/story.service.ts:7-13 | one joined entry per visible ranking row |
| StoryService.Ranking | api/src/services/story.service.ts:14 | sorted by `order` and holding exactly the candidates |
| StoryService.GetStories | api/src/services/story.service.ts:6-17 | exactly min(`limit`, ranking length − `offset`) entries when `offset` is within the ranking (never more than `limit`), each the ranking entry at `offset` plus its position |
| StoryService.ListedStoriesQualify | api/src/services/story.service.ts:11-13 | every listed story comes from a qualifying ranking row: live and, in the api edition, of the category |
| StoryService.QualifyingStoriesRanked | api/src/services/story.service.ts:7-14 | every qualifying story is in the ranking: the filters drop nothing else |
| StoryService.GetStoryByHnId | api/src/services/story.service.ts:42-48 | present exactly when a story with that hnId exists and its author is stored; it is that story; the src edition selects neither score nor text (src/services/story.service.ts:22-28) |
| TopStories.RowsOf | api/src/services/top-stories.service.ts:5 | exactly the rows of the category |
| TopStories.Without | api/src/services/top-stories.service.ts:5 | the delete keeps exactly the rows of other categories |
| TopStories.Ranked | api/src/services/top-stories.service.ts:7 | row i is `(type, items[i], i)` |
| TopStories.WithoutIdempotent | api/src/services/top-stories.service.ts:5 | deleting a category twice is deleting it once |
| TopStories.WithoutAppend | api/src/services/top-stories.service.ts:5-8 | the delete distributes over appended rows |
| TopStories.RowsOfAppend | api/src/services/top-stories.service.ts:5-8 | selecting a category distributes over appended rows |
| TopStories.SnapshotOfCategory | api/src/services/top-stories.service.ts:4-9 | after a successful call, the category holds exactly `(type, items[i], i)`, in input order |
| TopStories.OtherCategoriesUntouched | api/src/services/top-stories.service.ts:5 | the rows of every other category are unchanged, whether or not the insert succeeds |
| TopStories.ReplaceIdempotent | api/src/services/top-stories.service.ts:4-9 | repeating the call with the same ranking gives the same table and outcome |
| TopStories.WithoutValid | migrations/migrations/20240505214718_create_top_story_table.js:7-14 | the delete keeps both key constraints |
| TopStories.ConsValid | migrations/migrations/20240505214718_create_top_story_table.js:7-14 | a row that clashes with no row of a valid table can head it |
| TopStories.ReplaceSucceedsIff | migrations/migrations/20240505214718_create_top_story_table.js:7-14 | the insert succeeds exactly when the ranking repeats no id and ranks no story another category holds; `(type, order)` never clashes |
| TopStories.DisjointAppendValid | migrations/migrations/20240505214718_create_top_story_table.js:14 | a fresh ranking appended to the other categories keeps both keys |
| TopStories.ValidAppendDisjoint | migrations/migrations/20240505214718_create_top_story_table.js:7 | conversely, a valid result means the ranking had no repeated id and none held elsewhere |
| TopStories.TopStoryTable.InsertStories | api/src/services/top-stories.service.ts:4-9 | the table and the outcome are `ReplaceSnapshot`, and the table stays valid (also src/services/top-stories.service.ts:4-7) |
| ItemPersist.StoryInsertOf | api/src/services/item-persist.service.ts:22-34 | hnId and type as given; `dead` false by default; score and descendants 0 by default; created at `time*1000` ms; `deletedAt` set iff deleted; the user id is the author's entry in the user map; the src edition inserts no text |
| ItemPersist.StoryInserts | api/src/services/item-persist.service.ts:22-34 | one story row per item, in group order |
| ItemPersist.StoryRowRefused | migrations/migrations/20240414022518_create_story_table.js:16-24 | the story table refuses the row built for an item exactly when the group is the poll group, or the item has no author, or its author is not in the user map (`userId: this.userMap.get(item.by)!`, api/src/services/item-persist.service.ts:30-31) |
| ItemPersist.StoryGroupAccepted | api/src/services/item-persist.service.ts:36-39 | a group's statement is accepted exactly when the group is empty, or is not the poll group and every author is a known user |
| ItemPersist.CommentInsertOf | api/src/services/item-persist.service.ts:47-58 | `order` is the index in the group; `parentId` is the parent's recorded comment id, or none; `storyId` is the root's recorded story id (plus the src fallback lookup, src/services/item-persist.service.ts:40-44) and names the story row stored under the root |
| ItemPersist.CommentInserts | api/src/services/item-persist.service.ts:47-59 | one comment row per item, with `order` running 0..n-1 in group order |
| ItemPersist.RecordFacts | api/src/services/item-persist.service.ts:41-43 | recording adds exactly the returned keys, each with its returned id, and keeps every other entry |
| ItemPersist.UpsertRecorded | api/src/services/item-persist.service.ts:36-43 | an upsert plus recording adds exactly the group's ids to the table and the map, each recorded with the id the table holds |
| ItemPersist.StoriesRecorded | api/src/services/item-persist.service.ts:36-43 | after `#persistStories`, every story of the group is in `storyIdMap` with the id the table holds for it |
| ItemPersist.CommentsRecorded | api/src/services/item-persist.service.ts:61-68 | after `#persistComments`, every comment of the group is in `commentIdMap` with the id the table holds for it |
| ItemPersist.ReachedLevels | api/src/services/item-persist.service.ts:92-106 | a group's reach is the group itself, when of the type, plus the reach of its next level |
| ItemPersist.InheritKidsFacts | api/src/services/item-persist.service.ts:101-103 | each kid is mapped to its parent's root, or to the parent itself when it has none |
| ItemPersist.InheritAllFacts | api/src/services/item-persist.service.ts:99-104 | with unique ids, after the loop every kid of a valid item maps to that item's anchor as it was before the loop |
| ItemPersist.PersistWrites | api/src/services/item-persist.service.ts:75-108 | `persistItems` adds to the story table and map exactly the reached stories, jobs and polls, and to the comment table and map exactly the reached comments; nothing below a deleted or authorless item, and no pollopt, is written; the maps keep agreeing with the tables |
| ItemPersist.PersistAnchors | api/src/services/item-persist.service.ts:99-106 | with unique ids, every id beneath an item maps to that item's anchor, and no other `parentMap` entry changes |
| ItemPersist.RootsInherited | api/src/services/item-persist.service.ts:99-106 | from an empty `parentMap`, every reached descendant of a root maps to that root's external id |
| PersistLinks.GroupFrame | api/src/services/item-persist.service.ts:80-90 | writing one group changes no map entry and no row of an id outside the group |
| PersistLinks.PersistFrame | api/src/services/item-persist.service.ts:75-108 | `persistItems` changes no map entry and no row of an id that occurs nowhere in the forest |
| PersistLinks.CommentGroupRow | api/src/services/item-persist.service.ts:46-64 | a comment of the group written with no prior row is stored with the story id and the parent id the maps give when the group is written |
| PersistLinks.NextReady | api/src/services/item-persist.service.ts:99-106 | once the kids inherit their roots, neither a kid's root nor its parent lies in the next level, and the next level keeps unique ids and matching parents |
| PersistLinks.LinksHold | api/src/services/item-persist.service.ts:46-108 | every reached comment with no prior row ends the call stored with the story id and the parent id that the final maps give it |
| PersistLinks.CommentRowsLinked | api/src/services/item-persist.service.ts:48-53 | from a fresh persister, each comment reached below a story, job or poll, with no prior row, stores the internal id of that root's story row as `storyId`, and a comment replying to a reached comment stores that comment's row id as `parentId` |
| ItemPersist.Chunks | api/src/services/item-persist.service.ts:36 | `_.chunk`: non-empty batches of at most n rows whose concatenation is the list |
| ItemPersist.Batches | api/src/services/item-persist.service.ts:36 | 1000-row chunks in the api edition, one statement in the src edition (src/services/item-persist.service.ts:22), concatenating to the rows |
| ItemPersist.ItemPersister.UpsertStoryBatches | api/src/services/item-persist.service.ts:36-39 | the batches in order equal one upsert of all rows, with the keys concatenated |
| ItemPersist.ItemPersister.RecordStoryKeys | api/src/services/item-persist.service.ts:41-43 | the loop records each returned key into `storyIdMap` and leaves the other maps alone |
| ItemPersist.ItemPersister.WriteStories | api/src/services/item-persist.service.ts:21-44 | `#persistStories` computes `PersistStories` |
| ItemPersist.ItemPersister.UpsertCommentBatches | api/src/services/item-persist.service.ts:61-64 | the batches in order equal one upsert of all rows, with the keys concatenated |
| ItemPersist.ItemPersister.RecordCommentKeys | api/src/services/item-persist.service.ts:66-68 | the loop records each returned key into `commentIdMap` and leaves the other maps alone |
| ItemPersist.ItemPersister.WriteComments | api/src/services/item-persist.service.ts:46-69 | `#persistComments` computes `PersistComments`, building its rows from the maps as they are before the upsert |
| ItemPersist.ItemPersister.InheritParents | api/src/services/item-persist.service.ts:99-104 | the nested loop computes `InheritAll` and changes only `parentMap` |
| ItemPersist.ItemPersister.WriteGroup | api/src/services/item-persist.service.ts:80-90 | the dispatch by type: stories, jobs and polls to the story table, comments to the comment table, pollopt skipped |
| ItemPersist.ItemPersister.PersistGroupLevel | api/src/services/item-persist.service.ts:78-106 | one pass of the loop: write the group, and when its valid items have kids, let them inherit and recurse |
| ItemPersist.ItemPersister.PersistItems | api/src/services/item-persist.service.ts:75-108 | `persistItems` computes `Persist` on the persister's maps and both tables (also src/services/item-persist.service.ts:65-98) |
| CommentService.ConflictKeepsPlacement | api/src/services/comment.service.ts:19-27 | an api conflict changes only text, createdAt and deletedAt, keeping parent, story, user and order; a src merge overwrites every column (src/services/comment.service.ts:7-12) |
| CommentService.UpsertCommentsContent | api/src/services/comment.service.ts:16-30 | after the upsert, each listed comment holds its insert, or its conflict update of the stored row |
| CommentService.UpsertCommentsIdempotent | api/src/services/comment.service.ts:16-30 | the upsert twice leaves the rows as once (the identity sequence moves on) |
| CommentService.CommentStore.UpsertComments | api/src/services/comment.service.ts:16-30 | the store's table and the returned keys are those of `UpsertAll` with the edition's conflict rule |
| CommentService.SortOrderMeaning | api/src/services/comment.service.ts:6-14 | what each sort order asks of two comments at the same depth: order asc, created_at desc or asc, karma desc or asc, order desc for most replies, order asc for least, with `order` as the tie-break |
| CommentService.QueryNestable | api/src/services/comment.service.ts:77 | rows of the recursive query in the api order are deepest first, so each parent comes after its children |
| CommentService.KidsInRequestedOrder | api/src/services/comment.service.ts:77 | the replies to each comment come in the requested sort order |
| CommentService.RootOrder | api/src/services/comment.service.ts:109-113 | a permutation of the roots; by descendants descending for most replies, ascending for least; unchanged for every other order and in the src edition |
| CommentService.RootOrderStable | api/src/services/comment.service.ts:109-113 | the sort is stable: roots with equal reply counts keep their row order |
| CommentService.GetCommentsEachRowOnce | api/src/services/comment.service.ts:80-115 | every query row appears in the response exactly once, and nothing else does |
| CommentService.ReturnedDescendants | api/src/services/comment.service.ts:105 | a returned thread's `descendants` counts every comment beneath it (api), or its direct replies (src, src/services/comment.service.ts:82) |
| CommentService.GetCommentsByStoryId | api/src/services/comment.service.ts:80-115 | the nesting loops plus the optional sort compute `GetComments` |
| CommentService.QueryResultNestable | api/src/services/comment.service.ts:41-78 | the query result in the query's order (deepest first in api; tree by tree, shallowest first in src, src/services/comment.service.ts:54) can be nested |
| CommentService.SearchResults | api/src/services/comment.service.ts:139-147 | one result per row, with its hnId, no kids and `descendants = 0` |
| CommentService.SearchResultsFlat | api/src/services/comment.service.ts:139-147 | the search view lists exactly the matched ids, in query order, with no replies |
| CommentTree.IndexOf | api/src/services/comment.service.ts:103 | `commentMap.get`: the first row with that id, or none exactly when no row has it |
| CommentTree.Roots | api/src/services/comment.service.ts:100-101 | exactly the rows with no parent or equal to the requested comment (api), in row order |
| CommentTree.Children | api/src/services/comment.service.ts:102-104 | exactly the rows hanging under a row, in push order |
| CommentTree.Tree | api/src/services/comment.service.ts:89-99 | a formatted comment carries its hnId, its counter, one kid per child; in the src edition the counter is the number of children |
| CommentTree.NewEntries | api/src/services/comment.service.ts:81-85 | the first loop gives every row an empty `kids` list and a zero counter |
| CommentTree.PlaceRows | api/src/services/comment.service.ts:88-107 | the second loop pushes exactly the roots in order and leaves each map entry with that row's children and counter |
| CommentTree.Nest | api/src/services/comment.service.ts:80-107 | both loops: the final top level and the final map contents |
| CommentTree.AllPlaced | api/src/services/comment.service.ts:80-107 | once the loops are done, each row's entry holds its children and its counter |
| CommentTree.Readout | api/src/services/comment.service.ts:89-99 | the shared `kids` arrays and `descendants` getters, read once the loops are done, are exactly the tree of the row |
| CommentTree.DescendantsCountBelow | api/src/services/comment.service.ts:105 | in the api edition, with rows deepest first, a comment's `descendants` is the number of comments beneath it |
| CommentTree.EachRowOnce | api/src/services/comment.service.ts:80-107 | every row appears in the nested forest exactly once, and nothing else does (also src/services/comment.service.ts:57-85) |
| CommentTree.FlattenPermutation | api/src/services/comment.service.ts:109-113 | reordering roots does not change which comments the forest holds |
| CommentTree.DeepestFirstNestable | api/src/services/comment.service.ts:77 | deepest-first rows put every parent after its children |
| CommentTree.TreeByTreeNestable | src/services/comment.service.ts:54 | rows ordered by `parent_order, depth` put every parent before its children |
| CommentTree.JoinedParent | api/src/services/comment.service.ts:72 | the row the recursive query joined a reply to is the one the map lookup finds, one level up |
| Ordering.InsertBySorted | api/src/services/comment.service.ts:110-112 | inserting into a sorted list keeps it sorted |
| Ordering.InsertByPermutes | api/src/services/comment.service.ts:110-112 | inserting adds the element and keeps every other |
| Ordering.SortBy | api/src/services/comment.service.ts:110-112 | the sort's result is sorted by the key and is a permutation of the input |
| Ordering.SortBySorted | api/src/services/comment.service.ts:110-112 | an already sorted list is its own sort |
| Ordering.InsertByStable | api/src/services/comment.service.ts:110-112 | inserting keeps the relative order of elements of one key |
| Ordering.SortByStable | api/src/services/comment.service.ts:110-112 | stability: among elements of one key, the sort keeps the input order |
| Ordering.Slice | api/src/services/story.service.ts:15 | `LIMIT OFFSET`: at most `limit` rows, the ones starting at `offset`, as many as remain |
| PromiseLimit.ParseConcurrency | api/src/utils/promise-limit.ts:24-26 | accepted exactly when the concurrency is a positive integer or +∞; otherwise the TypeError message |
| PromiseLimit.Limiter.StartHead | api/src/utils/promise-limit.ts:39-41 | the earliest waiting task leaves the queue and runs; one more active |
| PromiseLimit.Limiter.Enqueue | api/src/utils/promise-limit.ts:53-56 | the task joins the back of the queue; nothing else changes |
| PromiseLimit.Limiter.DrainCheck | api/src/utils/promise-limit.ts:58-68 | a task starts exactly when a slot is free and the queue is not empty, and it is the head; `activeCount <= concurrency` is kept |
| PromiseLimit.Limiter.Complete | api/src/utils/promise-limit.ts:31-37 | a finished task, resolved or thrown, releases its slot, and the head of the queue, if any, takes it (api/src/utils/promise-limit.ts:46-50) |
| PromiseLimit.Limiter.ClearQueue | api/src/utils/promise-limit.ts:82-86 | the queue is emptied and the running tasks keep their slots |
| PromiseLimit.Limiter.PendingCount | api/src/utils/promise-limit.ts:79-81 | the queue length: the submitted tasks that have not left the queue |
| PromiseLimit.Limiter.ActiveCount | api/src/utils/promise-limit.ts:76-78 | the running tasks, never more than the bound |
| PromiseLimit.NewLimiter | api/src/utils/promise-limit.ts:23-29 | a fresh empty gate exactly when the argument is accepted, the TypeError otherwise |
| Pagination.PageOf | api/src/plugins/pagination.ts:11 | accepted exactly when absent or an integer of at least 1; absent reads as 1 |
| Pagination.LimitOf | api/src/plugins/pagination.ts:12 | accepted exactly when absent or an integer from 1 to 100; absent reads as 30 |
| Pagination.ParsePagination | api/src/plugins/pagination.ts:18-31 | `validation_error` (400) exactly when a parameter is out of bounds; otherwise offset `(page-1)*limit` and that limit |
| Pagination.DefaultWindow | api/src/plugins/pagination.ts:26-30 | no parameters give the first 30 rows |
| Pagination.WindowBounds | api/src/plugins/pagination.ts:27-30 | every accepted window has a non-negative offset and takes 1 to 100 rows |
| Pagination.NextPageAdjacent | api/src/plugins/pagination.ts:28 | page p+1 starts where page p ends |
| ErrorCodes.Status | api/src/constants/error-code.ts:9-70 | every status is an error status; 500 exactly for internal_server_error; 404 for not_found and route_not_found; 400 for validation_error and invalid_body; 409 for the three conflicts; 403 for the two forbidden codes |
| ErrorCodes.WordLen | api/src/constants/error-code.ts:90 | the longest run of `\w` characters at the start |
| ErrorCodes.PlaceholderAt | api/src/constants/error-code.ts:90 | a key is found exactly when the text starts with `{{`, a non-empty word and `}}` |
| ErrorCodes.NoBraceUnchanged | api/src/constants/error-code.ts:89-92 | a message without placeholders comes back unchanged |
| ErrorCodes.PlaceholderReplaced | api/src/constants/error-code.ts:89-92 | a placeholder becomes its replacement, which is not scanned again; the scan resumes after the braces |
| ErrorCodes.LiteralKept | api/src/constants/error-code.ts:89-92 | text that does not start a placeholder is kept as it is |
| ErrorCodes.MissingKeyUnknown | api/src/constants/error-code.ts:91 | a missing replacement is spelled `unknown` |
| ErrorCodes.GetErrorObject | api/src/constants/error-code.ts:81-86 | the object carries the code it was asked for, with that code's substituted message |
| HttpErrors.Replacements | api/src/utils/custom-errors.ts:15 | the defined properties of an object detail, and none for anything else |
| HttpErrors.Of | api/src/utils/custom-errors.ts:10-35 | code, cause and details stored unchanged; the status is the table's; the message is the custom one, else the table's substituted with the details |
| HttpErrors.GetError | api/src/utils/custom-errors.ts:37-39 | no cause, no details, the table's status and message |
| HttpErrors.NotFoundError | api/src/utils/custom-errors.ts:43-49 | code not_found, status 404, details `{resource, alias}`, message substituted with them |
| HttpErrors.ForbiddenError | api/src/utils/custom-errors.ts:50-57 | code forbidden, status 403, details `{resource, alias, role_required}` |
| HttpErrors.RolesReplaceOnlyWhenGiven | api/src/utils/custom-errors.ts:50-57 | `role_required` is a replacement exactly when roles are given |
| Handlers.BranchOf | src/utils/handlers.ts:12-83 | the first matching branch: invalid JSON body first, then HttpError, validation, custom validation, FastifyError, else uncaught |
| Handlers.TableCodesAreNotFastifyCodes | src/utils/handlers.ts:13 | no code of the table is one of Fastify's codes |
| Handlers.ErrorHandler | src/utils/handlers.ts:12-83 | per branch: 400 invalid_body with the error's message as detail; the HttpError's own status, code, message and details; 400 validation_error with the validation report; the FastifyError's status, code and message; else 500 internal_server_error, whose message and cause are the thrown error's where causes are displayed and the table's message with no cause elsewhere |
| Handlers.CauseOnlyWhenDisplayed | src/utils/handlers.ts:24-81 | the reply object has a `cause` property only when NODE_ENV is test or development, and then for every HttpError and every uncaught error; the serialized body holds the `cause` key exactly there, except for an HttpError whose cause is undefined, which JSON drops |
| Handlers.RepliesFollowTable | src/utils/handlers.ts:12-83 | except FastifyError, every reply carries a table code with that code's status |
| Handlers.RepliesAreErrors | src/utils/handlers.ts:12-83 | every reply has an error status |
| Handlers.NotFoundHandler | src/utils/handlers.ts:85-95 | 404 not_found with `details.resource = 'route'`, `details.alias = url` |
| Handlers.ValidatorCompiler | src/utils/handlers.ts:116-125 | missing part: 'Missing httpPart'; body: the non-coercing compiler; params, querystring, headers: the coercing one; anything else: 'Missing compiler for …' |

## Left out

- Network clients are left out: undici, axios, axios-retry and their agents. `fetchStoryIds`, `fetchItemById` and `fetchUserById` are remote I/O. The item and user APIs are the parameters `fetch` and `fetchUser`; only the retry-delay formula is modelled.
- `ItemFetch.FetchTree` carries a `fuel` bound. The source recursion has none. `FetchTreeComplete` shows that any fuel at least the tree's depth gives the unbounded result.
- StoryCrawl.FetchedUsers: `extractUserIds` adds `item.by` even when it is undefined, so `fetchUserById(undefined)` is requested. The model keeps that handle as `None` and leaves the outcome to the parameter `fetchUser(None)`: if it returns a user, that user is upserted like any other; if it returns `None`, the fetch counts as rejected and is dropped. What the remote API actually answers for `/user/undefined.json` is not modelled.
- Concurrency is left out: `Promise.all` and `Promise.allSettled` fan-out, parallel batch uploads, microtasks and `AsyncResource` binding. The model runs fetches and batches sequentially, in list order, and models the crawl's gates (`pLimit(250)` for items and users; `pLimit(500)` in api, `pLimit(1250)` in src, for comments) only as the `PromiseLimit` state machine.
- PromiseLimit.Limiter.Complete: the `Outcome` parameter does not change the result, because the source releases the slot the same way for a resolved and a thrown task. The promise results that `run` resolves are not modelled.
- The database engine is left out: query builders, SQL, transactions and `ilike` matching. Tables are values, and the row order of the recursive comment query is a precondition stated from its `ORDER BY`.
- A statement that lists one key twice is an error in PostgreSQL. The model applies such rows one after another; the content lemmas require distinct keys.
- `story_id` is NOT NULL. When a comment's root story has no recorded id, the insert would be refused. The model keeps `storyId = None` and does not model that refusal. `PersistLinks.CommentRowsLinked` shows that a comment reached below a story root always gets the root's id.
- ItemPersist.PersistWrites: the story table's NOT NULL `user_id` and its `story_type` enum of `story` and `job` (migrations/migrations/20240414022518_create_story_table.js:16-24) refuse every poll row and every row without a known author. `upsertStories` then rejects, and `persistItems` rejects with it, writing nothing of the remaining groups. The model stores such rows instead; `ItemPersist.StoryRowRefused` and `ItemPersist.StoryGroupAccepted` state exactly which rows and groups the table refuses.
- ItemPersist.StoryInsertOf: a missing user becomes `userId = None` rather than the `undefined` that would fail the insert; the refusal itself is the one described for `PersistWrites`.
- PersistLinks.CommentRowsLinked: speaks of comments with no row before the call. An existing row keeps its story and parent ids under the api conflict rule (`CommentService.ConflictKeepsPlacement`). It takes as given what the remote API serves: unique ids, and each kid's `parent` naming the item that lists it.
- Clock readings are left out. `now` is one parameter for a whole persist call, so every `deletedAt` of the call gets the same value. `updatedAt` is not modelled.
- Schedule times are integer minutes. dayjs computes a fractional difference; the model does not.
- The user upsert (`UserService.upsertUsers`) is the parameter `upsertUsers`, which returns the stored rows.
- Logging is left out.
- JavaScript property lookups are left out. An inherited property of a plain object, such as `constructor`, would be found by `replacements[key]` and by `schemaCompilers[httpPart]`; the model looks in own properties only.
- Numbers are mathematical integers. JavaScript's double precision and non-integer details are not modelled.
- In `HttpErrors`, details values are strings, integers or string lists; object and function values are left out. A cause is kept as a description.
- The validator compiler is the choice of ajv instance; `compile` itself and typebox/ajv coercion are left out.
- src/utils/custom-errors.ts and src/constants/error-code.ts are not part of this model. `Handlers` uses the api edition's error table and `HttpError`.
- Handlers.ErrorHandler: the 'No message provided' fallback is not modelled, because an `HttpError` message is always a string. A FastifyError's `statusCode` is taken as an integer.
- HttpErrors.GetError: messages are stated as the substitution of the table text with no replacements. The model does not prove that those texts hold no placeholder.
- The src `CommentService.parentByHnId` is an unused query builder and is left out; the src persister's fallback subquery is part of `ItemPersist.StoryIdOf`.
- `src/services/story-fetch.service.ts` is timer-driven I/O and is left out.
