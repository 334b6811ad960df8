/**
 * The shape the three list query handlers share: a query state with the
 * request's page number as `Skip` and page size as `Take`, the criteria the
 * handler built (if any), the sort expressions appended one by one, then
 * either the counted page or the slice from the read repository, mapped to
 * DTOs.
 */
module ListHandler {
  import opened Wrappers
  import opened Int32
  import opened Linq
  import opened Querying
  import opened ReadRepository

  /** The response a handler returns for a query state: the counted page with totals, or the slice without. */
  function ResponseFor<T(!new), K, D>(source: seq<T>, state: QueryState<T, K>, includeTotalCount: bool,
                                      database: Query<T, K> -> seq<T>, toDto: T -> D): (r: PagedResponse<D>)
    requires includeTotalCount ==> |database(QueryOf(source, state))| <= MaxValue
    ensures r.pageNumber == state.skip && r.pageSize == state.take
    ensures r.totalCount.Some? <==> includeTotalCount
    ensures r.totalPages.Some? <==> includeTotalCount
    ensures includeTotalCount ==>
      var page := PageOf(database(QueryOf(source, state)), state);
      r.items == Select(page.items, toDto) && r.totalCount == Some(page.totalCount) && r.totalPages == Some(page.TotalPages()) &&
      r.hasPreviousPage == page.HasPreviousPage() && r.hasNextPage == page.HasNextPage()
    ensures !includeTotalCount ==>
      var slice := SliceOf(database(QueryOf(source, state)), state);
      r.items == Select(slice.items, toDto) && r.hasPreviousPage == slice.HasPreviousPage() && r.hasNextPage == slice.hasNextPage
  {
    var rows := database(QueryOf(source, state));
    if includeTotalCount then PagedResponseOf(PageOf(rows, state), toDto)
    else SliceResponseOf(SliceOf(rows, state), toDto)
  }

  /** Two states that keep the same rows, order them alike and load the same navigations give the same response. */
  lemma SameQuerySameResponse<T(!new), K, D>(source: seq<T>, s1: QueryState<T, K>, s2: QueryState<T, K>, includeTotalCount: bool,
                                             database: Query<T, K> -> seq<T>, toDto: T -> D)
    requires s1.skip == s2.skip && s1.take == s2.take && s1.sort == s2.sort && s1.includes == s2.includes
    requires Filter(source, s1) == Filter(source, s2)
    requires includeTotalCount ==> |database(QueryOf(source, s1))| <= MaxValue
    ensures includeTotalCount ==> |database(QueryOf(source, s2))| <= MaxValue
    ensures ResponseFor(source, s1, includeTotalCount, database, toDto) == ResponseFor(source, s2, includeTotalCount, database, toDto)
  {
    assert QueryOf(source, s1) == QueryOf(source, s2);
    assert SkipRows(s1) == SkipRows(s2);
  }

  /**
   * The common tail of `Handle`: start from the page numbers, set the
   * criteria, append the sort expressions, fetch and map.
   */
  method Respond<T(!new), K, D>(pageNumber: int32, pageSize: int32, includeTotalCount: bool, criteria: Option<T -> bool>,
                                sortExpressions: seq<SortExpression<K>>, includes: seq<string>,
                                source: seq<T>, database: Query<T, K> -> seq<T>, toDto: T -> D)
    returns (response: PagedResponse<D>)
    requires includeTotalCount ==>
      |database(QueryOf(source, QueryState(pageNumber, pageSize, criteria, sortExpressions, includes)))| <= MaxValue
    ensures response == ResponseFor(source, QueryState(pageNumber, pageSize, criteria, sortExpressions, includes),
                                    includeTotalCount, database, toDto)
  {
    var queryState: QueryState<T, K> := QueryState(pageNumber, pageSize, None, [], includes);
    if criteria.Some? {
      queryState := queryState.(criteria := criteria);
    }
    var i := 0;
    while i < |sortExpressions|
      invariant 0 <= i <= |sortExpressions|
      invariant queryState == QueryState(pageNumber, pageSize, criteria, sortExpressions[..i], includes)
    {
      assert sortExpressions[..i + 1] == sortExpressions[..i] + [sortExpressions[i]];
      queryState := queryState.(sort := queryState.sort + [sortExpressions[i]]);
      i := i + 1;
    }
    assert sortExpressions[..i] == sortExpressions;
    if includeTotalCount {
      var paged := GetPaged(source, queryState, database);
      var dtos := Select(paged.items, toDto);
      response := PagedResponse(dtos, paged.pageNumber, paged.pageSize, paged.HasPreviousPage(), paged.HasNextPage(),
                                Some(paged.totalCount), Some(paged.TotalPages()));
    } else {
      var slice := GetSlice(source, queryState, database);
      var dtos := Select(slice.items, toDto);
      response := PagedResponse(dtos, slice.pageNumber, slice.pageSize, slice.HasPreviousPage(), slice.hasNextPage, None, None);
    }
  }
}
