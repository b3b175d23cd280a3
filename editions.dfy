/**
 * The repository carries two copies of the ingestion services: the later one under `api/`
 * and the earlier one under `src/`. The shared logic is modelled once; this module names
 * the points where the copies differ.
 */
module Editions {
  import opened Wrappers

  datatype Edition = Api | Src

  /** FETCH_INTERVAL_MINUTES of the item fetch service. */
  function FetchIntervalMinutes(e: Edition): (r: nat)
    ensures r > 0
  {
    match e
    case Api => 30
    case Src => 15
  }

  /** Row batch size of the persister's bulk upserts; `None` when rows are sent in one statement. */
  function UpsertBatchSize(e: Edition): (r: Option<nat>)
    ensures r.Some? ==> r.value > 0
  {
    match e
    case Api => Some(1000)
    case Src => None
  }

  /** Whether the number of upserted users is compared with the number of fetched users. */
  predicate ChecksUserCount(e: Edition) {
    e == Api
  }

  /** Whether a comment whose root story is not in the id map falls back to a lookup by hn_id. */
  predicate FallsBackToStoryLookup(e: Edition) {
    e == Src
  }
}
