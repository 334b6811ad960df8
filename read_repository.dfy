/**
 * `GenericReadRepository`: the query a state describes (filter first, then
 * the orderings the sort list gives), and the page and slice arithmetic over
 * the rows the database returns for that query.
 *
 * The database itself is a parameter: it receives the filtered rows with the
 * ordering and returns them in that order.
 */
module ReadRepository {
  import opened Wrappers
  import opened Int32
  import opened Linq
  import opened Querying

  // ---------------------------------------------------------------------
  // ApplyState
  // ---------------------------------------------------------------------

  /** The ordering an `IQueryable` carries: none yet, or `OrderBy` on the first key and `ThenBy` on the rest. */
  datatype Ordering<K> = Unordered | OrderedBy(keys: seq<SortExpression<K>>)

  /** The query `ApplyState` builds: the rows the filter keeps, their ordering and the navigations to load. */
  datatype Query<T, K> = Query(rows: seq<T>, ordering: Ordering<K>, includes: seq<string>)

  /** The ordering a sort list gives: its expressions, first one primary, in list order. */
  function OrderingOf<K>(sort: seq<SortExpression<K>>): Ordering<K>
  {
    if sort == [] then Unordered else OrderedBy(sort)
  }

  function QueryOf<T(!new), K>(source: seq<T>, state: QueryState<T, K>): Query<T, K>
  {
    Query(Filter(source, state), OrderingOf(state.sort), state.includes)
  }

  /** `ApplyState`: the filter, then the first sort expression as `OrderBy` and every later one as `ThenBy`. */
  method ApplyState<T(!new), K>(source: seq<T>, state: QueryState<T, K>) returns (q: Query<T, K>)
    ensures q == QueryOf(source, state)
  {
    var rows := source;
    if state.criteria.Some? {
      rows := Where(rows, state.criteria.value);
    }
    var ordering: Ordering<K> := Unordered;
    var firstOrder := true;
    var i := 0;
    while i < |state.sort|
      invariant 0 <= i <= |state.sort|
      invariant firstOrder <==> i == 0
      invariant firstOrder ==> ordering == Unordered
      invariant !firstOrder ==> ordering == OrderedBy(state.sort[..i])
    {
      var sort := state.sort[i];
      if firstOrder {
        ordering := OrderedBy([sort]);
        firstOrder := false;
      } else {
        ordering := OrderedBy(ordering.keys + [sort]);
      }
      assert state.sort[..i + 1] == state.sort[..i] + [sort];
      i := i + 1;
    }
    assert state.sort[..i] == state.sort;
    q := Query(rows, ordering, state.includes);
  }

  /** A comparison as a descending key sees it. */
  function Directed(c: int, descending: bool): int
  {
    if descending then -c else c
  }

  /**
   * How an ordering compares two rows, given how each key compares them:
   * the first key that does not tie decides, in its direction.
   */
  function Compare<T, K>(keys: seq<SortExpression<K>>, keyCompare: (K, T, T) -> int, x: T, y: T): int
  {
    if keys == [] then 0
    else
      var c := Directed(keyCompare(keys[0].key, x, y), keys[0].descending);
      if c != 0 then c else Compare(keys[1..], keyCompare, x, y)
  }

  /** Whether the key at `j` separates two rows. */
  predicate Separates<T, K>(keys: seq<SortExpression<K>>, keyCompare: (K, T, T) -> int, x: T, y: T, j: int)
    requires 0 <= j < |keys|
  {
    Directed(keyCompare(keys[j].key, x, y), keys[j].descending) != 0
  }

  /** Two rows tie under an ordering exactly when no key separates them. */
  lemma {:induction false} CompareTiesIffNoKeySeparates<T, K>(keys: seq<SortExpression<K>>, keyCompare: (K, T, T) -> int, x: T, y: T)
    ensures Compare(keys, keyCompare, x, y) == 0 <==> forall j :: 0 <= j < |keys| ==> !Separates(keys, keyCompare, x, y, j)
  {
    if keys != [] {
      CompareTiesIffNoKeySeparates(keys[1..], keyCompare, x, y);
      forall j | 1 <= j < |keys| ensures Separates(keys, keyCompare, x, y, j) == Separates(keys[1..], keyCompare, x, y, j - 1) {
        assert keys[1..][j - 1] == keys[j];
      }
      if Compare(keys, keyCompare, x, y) == 0 {
        assert !Separates(keys, keyCompare, x, y, 0);
      } else if !Separates(keys, keyCompare, x, y, 0) {
        var i :| 0 <= i < |keys[1..]| && Separates(keys[1..], keyCompare, x, y, i);
        assert Separates(keys, keyCompare, x, y, i + 1);
      }
    }
  }

  /** Otherwise the first key that separates two rows decides their comparison, in its direction. */
  lemma {:induction false} FirstSeparatingKeyDecides<T, K>(keys: seq<SortExpression<K>>, keyCompare: (K, T, T) -> int, x: T, y: T, j: int)
    requires 0 <= j < |keys| && Separates(keys, keyCompare, x, y, j)
    requires forall i :: 0 <= i < j ==> !Separates(keys, keyCompare, x, y, i)
    ensures Compare(keys, keyCompare, x, y) == Directed(keyCompare(keys[j].key, x, y), keys[j].descending)
  {
    if j > 0 {
      assert !Separates(keys, keyCompare, x, y, 0);
      forall i | 0 <= i < j - 1 ensures !Separates(keys[1..], keyCompare, x, y, i) {
        assert keys[1..][i] == keys[i + 1];
        assert !Separates(keys, keyCompare, x, y, i + 1);
      }
      assert keys[1..][j - 1] == keys[j];
      FirstSeparatingKeyDecides(keys[1..], keyCompare, x, y, j - 1);
    }
  }

  /** `ThenBy` refines an ordering: it keeps every decided comparison and breaks only the ties, by the new key. */
  lemma {:induction false} ThenByBreaksTies<T, K>(keys: seq<SortExpression<K>>, k: SortExpression<K>, keyCompare: (K, T, T) -> int, x: T, y: T)
    ensures Compare(keys, keyCompare, x, y) != 0 ==> Compare(keys + [k], keyCompare, x, y) == Compare(keys, keyCompare, x, y)
    ensures Compare(keys, keyCompare, x, y) == 0 ==>
      Compare(keys + [k], keyCompare, x, y) == Directed(keyCompare(k.key, x, y), k.descending)
  {
    if keys == [] {
      assert [] + [k] == [k];
      assert [k][1..] == [];
    } else {
      assert (keys + [k])[1..] == keys[1..] + [k];
      ThenByBreaksTies(keys[1..], k, keyCompare, x, y);
    }
  }

  /** With antisymmetric keys, an ordering is antisymmetric: swapping two rows negates the comparison. */
  lemma {:induction false} CompareAntisymmetric<T, K>(keys: seq<SortExpression<K>>, keyCompare: (K, T, T) -> int, x: T, y: T)
    requires forall j :: 0 <= j < |keys| ==> keyCompare(keys[j].key, y, x) == -keyCompare(keys[j].key, x, y)
    ensures Compare(keys, keyCompare, y, x) == -Compare(keys, keyCompare, x, y)
  {
    if keys != [] {
      assert keyCompare(keys[0].key, y, x) == -keyCompare(keys[0].key, x, y);
      CompareAntisymmetric(keys[1..], keyCompare, x, y);
    }
  }

  // ---------------------------------------------------------------------
  // Paging
  // ---------------------------------------------------------------------

  /** The rows before the requested page: `(Skip - 1) * Take` in wrapping `int` arithmetic, or none without a positive `Take`. */
  function SkipRows<T, K>(state: QueryState<T, K>): (r: int32)
    ensures state.take <= 0 ==> r == 0
    ensures state.take > 0 && 1 <= state.skip && (state.skip as int - 1) * state.take as int <= MaxValue ==>
      r == (state.skip as int - 1) * state.take as int
  {
    if state.take > 0 then
      var n := (state.skip as int - 1) * state.take as int;
      assert 1 <= state.skip ==> n >= 0 by {
        if 1 <= state.skip {
          MulByPositiveNat(state.skip as int - 1, state.take as int);
        }
      }
      Wrap(n)
    else 0
  }

  /** Where a skip count starts in a list: a negative count skips nothing and a large one everything. */
  function Start(n: int, length: nat): (lo: nat)
    ensures lo <= length
  {
    Min(Max(n, 0), length)
  }

  /** The page `GetPagedAsync` returns over the rows the database yields in order. */
  function PageOf<T, K>(rows: seq<T>, state: QueryState<T, K>): (r: PagedResult<T>)
    requires |rows| <= MaxValue
    ensures r.totalCount == |rows| && r.pageNumber == state.skip && r.pageSize == state.take
    ensures state.take <= 0 ==> r.items == rows
    ensures state.take > 0 ==>
      var lo := Start(SkipRows(state), |rows|);
      r.items == rows[lo..Min(lo + state.take, |rows|)]
  {
    var skipRows := SkipRows(state);
    SkipTakeWindow(rows, skipRows, state.take);
    var items := if state.take > 0 then Take(Skip(rows, skipRows), state.take) else rows;
    PagedResult(items, state.skip, state.take, |rows|)
  }

  /** The slice `GetSliceAsync` returns: it fetches one row more than a page to learn whether another follows. */
  function SliceOf<T, K>(rows: seq<T>, state: QueryState<T, K>): (r: SliceResult<T>)
    ensures r.pageNumber == state.skip && r.pageSize == state.take
    ensures state.take <= 0 ==> r.items == rows && !r.hasNextPage
    ensures 0 < state.take < MaxValue ==>
      var lo := Start(SkipRows(state), |rows|);
      (r.hasNextPage <==> |rows| - lo > state.take) && r.items == rows[lo..Min(lo + state.take, |rows|)]
  {
    if state.take <= 0 then SliceResult(rows, state.skip, state.take, false)
    else
      var skipRows := SkipRows(state);
      var fetch := Wrap(state.take + 1);
      SkipTakeWindow(rows, skipRows, fetch);
      var itemsPlusOne := Take(Skip(rows, skipRows), fetch);
      var hasNext := |itemsPlusOne| > state.take;
      var items := if hasNext then Take(itemsPlusOne, state.take) else itemsPlusOne;
      SliceResult(items, state.skip, state.take, hasNext)
  }

  /** `GetPagedAsync`: applies the state, lets the database order the rows, counts them and cuts the page. */
  method GetPaged<T(!new), K>(source: seq<T>, state: QueryState<T, K>, database: Query<T, K> -> seq<T>) returns (r: PagedResult<T>)
    requires |database(QueryOf(source, state))| <= MaxValue
    ensures r == PageOf(database(QueryOf(source, state)), state)
  {
    var query := ApplyState(source, state);
    var rows := database(query);
    var pageNumber := state.skip;
    var pageSize := state.take;
    var skipRows: int32 := if pageSize > 0 then Wrap((pageNumber as int - 1) * pageSize as int) else 0;
    var total: int32 := |rows|;
    var items := if pageSize > 0 then Take(Skip(rows, skipRows), pageSize) else rows;
    r := PagedResult(items, pageNumber, pageSize, total);
  }

  /** `GetSliceAsync`: applies the state, lets the database order the rows and cuts the slice. */
  method GetSlice<T(!new), K>(source: seq<T>, state: QueryState<T, K>, database: Query<T, K> -> seq<T>) returns (r: SliceResult<T>)
    ensures r == SliceOf(database(QueryOf(source, state)), state)
  {
    var query := ApplyState(source, state);
    var rows := database(query);
    var pageNumber := state.skip;
    var pageSize := state.take;
    var skipRows: int32 := if pageSize > 0 then Wrap((pageNumber as int - 1) * pageSize as int) else 0;
    if pageSize <= 0 {
      return SliceResult(rows, pageNumber, pageSize, false);
    }
    var itemsPlusOne := Take(Skip(rows, skipRows), Wrap(pageSize as int + 1));
    var hasNext := |itemsPlusOne| > pageSize;
    var items := if hasNext then Take(itemsPlusOne, pageSize) else itemsPlusOne;
    r := SliceResult(items, pageNumber, pageSize, hasNext);
  }

  /**
   * For a page size below `int.MaxValue` and an offset that does not wrap,
   * the slice holds the same rows as the counted page and knows of a next
   * page exactly when the counted page does.
   */
  lemma SliceAgreesWithPage<T, K>(rows: seq<T>, state: QueryState<T, K>)
    requires |rows| <= MaxValue
    requires 0 < state.take < MaxValue && 1 <= state.skip && (state.skip as int - 1) * state.take as int <= MaxValue
    ensures SliceOf(rows, state).items == PageOf(rows, state).items
    ensures SliceOf(rows, state).hasNextPage == PageOf(rows, state).HasNextPage()
  {
    var page := PageOf(rows, state);
    var slice := SliceOf(rows, state);
    var n := (state.skip as int - 1) * state.take as int;
    MulByPositiveNat(state.skip as int - 1, state.take as int);
    NextPageOffset(state.skip as int, state.take as int);
    assert SkipRows(state) == n;
    var lo := Start(n, |rows|);
    assert slice.items == page.items;
    assert slice.hasNextPage <==> |rows| - lo > state.take;
    assert page.HasNextPage() <==> n + state.take < |rows| by {
      HasNextPageMeaning(page);
    }
  }

  lemma NextPageOffset(skip: int, take: int)
    ensures (skip - 1) * take + take == skip * take
  {
  }

  /** Row `i` is at position `i % Take` of page `i / Take + 1`. */
  lemma RowOnItsPage<T, K>(rows: seq<T>, state: QueryState<T, K>, i: int)
    requires |rows| <= MaxValue && 0 <= i < |rows|
    requires state.take > 0 && state.skip == i / state.take + 1
    ensures 0 <= i % state.take < |PageOf(rows, state).items|
    ensures PageOf(rows, state).items[i % state.take] == rows[i]
  {
    var take := state.take as int;
    var lo := (state.skip as int - 1) * take;
    PageStart(i, take);
    assert SkipRows(state) == lo;
    assert Start(lo, |rows|) == lo;
    assert PageOf(rows, state).items == rows[lo..Min(lo + take, |rows|)];
  }

  /** Row `i` lies `i % take` rows into the page that starts at `(i / take) * take`. */
  lemma PageStart(i: nat, take: int)
    requires take > 0
    ensures 0 <= (i / take) * take <= i < (i / take) * take + take
    ensures i - (i / take) * take == i % take
  {
    MulByPositiveNat(i / take, take);
  }

  lemma MulByPositiveNat(q: nat, b: int)
    requires b >= 1
    ensures 0 <= q * b
  {
  }

  /** An offset that wraps to zero serves page 1: page 65537 of size 65536 starts at row 0. */
  lemma WrappedOffsetServesFirstPage<T, K>(rows: seq<T>, state: QueryState<T, K>)
    requires |rows| <= MaxValue && state.skip == 65537 && state.take == 65536
    ensures PageOf(rows, state).items == PageOf(rows, state.(skip := 1)).items
    ensures PageOf(rows, state).items == rows[..Min(65536, |rows|)]
  {
    assert (state.skip - 1) * state.take == 0x1_0000_0000;
    assert Wrap(0x1_0000_0000) == 0;
  }

  /** With `Take == int.MaxValue`, `Take + 1` wraps to `int.MinValue`, so the slice fetches nothing. */
  lemma LargestPageSizeSliceIsEmpty<T, K>(rows: seq<T>, state: QueryState<T, K>)
    requires state.take == MaxValue
    ensures SliceOf(rows, state).items == [] && !SliceOf(rows, state).hasNextPage
  {
    MaxValuePlusOneWraps();
  }
}
