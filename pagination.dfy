/**
 * Pagination of list endpoints (api/src/plugins/pagination.ts): the `page` and `limit`
 * query parameters are checked against the schema (an integer page of at least 1, an
 * integer limit between 1 and 100, defaults 1 and 30) and turned into an offset and a
 * row limit.
 */
module Pagination {
  import opened Wrappers
  import opened ErrorCodes
  import opened HttpErrors

  const DefaultLimit: int := 30
  const MaxLimit: int := 100

  /**
   * A query parameter as the validator sees it after coercion: absent, an integer, or
   * something that is not an integer.
   */
  datatype QueryValue = Absent | IntegerValue(n: int) | NotAnInteger

  datatype PageWindow = PageWindow(offset: int, limit: int)

  /** The schema's `page`: an integer of at least 1, 1 when absent. */
  function PageOf(q: QueryValue): (r: Option<int>)
    ensures r.Some? <==> q.Absent? || (q.IntegerValue? && q.n >= 1)
    ensures q.Absent? ==> r == Some(1)
    ensures q.IntegerValue? && r.Some? ==> r.value == q.n
  {
    match q
    case Absent => Some(1)
    case IntegerValue(n) => if n >= 1 then Some(n) else None
    case NotAnInteger => None
  }

  /** The schema's `limit`: an integer between 1 and 100, 30 when absent. */
  function LimitOf(q: QueryValue): (r: Option<int>)
    ensures r.Some? <==> q.Absent? || (q.IntegerValue? && 1 <= q.n <= MaxLimit)
    ensures q.Absent? ==> r == Some(DefaultLimit)
    ensures q.IntegerValue? && r.Some? ==> r.value == q.n
  {
    match q
    case Absent => Some(DefaultLimit)
    case IntegerValue(n) => if 1 <= n <= MaxLimit then Some(n) else None
    case NotAnInteger => None
  }

  function Min(a: int, b: int): int {
    if a <= b then a else b
  }

  /** `request.parsePagination()`: the window of rows to return, or `validation_error`. */
  function ParsePagination(page: QueryValue, limit: QueryValue): (r: Result<PageWindow, HttpError>)
    ensures r.Err? <==> PageOf(page).None? || LimitOf(limit).None?
    ensures r.Err? ==> r.error == GetError(ErrorCode.ValidationError) && r.error.statusCode == 400
    ensures r.Ok? ==> r.value.offset == (PageOf(page).value - 1) * LimitOf(limit).value
    ensures r.Ok? ==> r.value.limit == LimitOf(limit).value
  {
    match (PageOf(page), LimitOf(limit))
    case (Some(p), Some(l)) => Ok(PageWindow((p - 1) * l, Min(l, MaxLimit)))
    case _ => Err(GetError(ErrorCode.ValidationError))
  }

  /** A request without pagination parameters gets the first 30 rows. */
  lemma DefaultWindow()
    ensures ParsePagination(Absent, Absent) == Ok(PageWindow(0, DefaultLimit))
  {
  }

  /** Every accepted window starts at a non-negative offset and takes between 1 and 100 rows. */
  lemma WindowBounds(page: QueryValue, limit: QueryValue)
    requires ParsePagination(page, limit).Ok?
    ensures var w := ParsePagination(page, limit).value;
      w.offset >= 0 && 1 <= w.limit <= MaxLimit
  {
    var p := PageOf(page).value;
    var l := LimitOf(limit).value;
    assert (p - 1) * l >= 0;
  }

  /** Consecutive pages of one limit are adjacent windows: page `p + 1` starts where page `p` ends. */
  lemma NextPageAdjacent(p: int, l: int)
    requires p >= 1 && 1 <= l <= MaxLimit
    ensures ParsePagination(IntegerValue(p + 1), IntegerValue(l)).value.offset
         == ParsePagination(IntegerValue(p), IntegerValue(l)).value.offset + l
  {
  }
}
