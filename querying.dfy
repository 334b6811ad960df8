/**
 * The querying building blocks shared by every module: the sort-string
 * parser, the page and slice results, the response the handlers return and
 * the query state a handler hands to its read repository.
 */
module Querying {
  import opened Wrappers
  import opened Int32
  import opened Linq
  import opened Text

  // ---------------------------------------------------------------------
  // SortParser
  // ---------------------------------------------------------------------

  /** A requested sort field and its direction. */
  datatype SortField = SortField(field: string, descending: bool)

  /** One trimmed part: a leading `-` is dropped and makes the field descending, as does the global flag. */
  function FieldOf(part: string, descending: bool): SortField
  {
    var dash := StartsWith(part, "-");
    SortField(if dash then part[1..] else part, dash || descending)
  }

  /** The fields of a list of parts, in order. */
  function Fields(parts: seq<string>, descending: bool): (r: seq<SortField>)
    ensures |r| == |parts|
    ensures forall i :: 0 <= i < |parts| ==> r[i] == FieldOf(parts[i], descending)
  {
    if parts == [] then []
    else Fields(parts[..|parts| - 1], descending) + [FieldOf(parts[|parts| - 1], descending)]
  }

  /** The parts of a sort string: none when it is missing or blank, else the non-empty trimmed comma pieces. */
  function SortParts(sort: Option<string>): seq<string>
  {
    if IsNullOrWhiteSpace(sort) then [] else SplitTrimmedNonEmpty(sort.value, ',')
  }

  /** What `SortParser.Parse` returns. */
  function ParseSpec(sort: Option<string>, descending: bool): seq<SortField>
  {
    Fields(SortParts(sort), descending)
  }

  /** `SortParser.Parse`: nothing for a blank sort, else the fields of the trimmed comma parts. */
  method Parse(sort: Option<string>, descending: bool) returns (list: seq<SortField>)
    ensures list == ParseSpec(sort, descending)
  {
    if IsNullOrWhiteSpace(sort) {
      return [];
    }
    var parts := SplitTrimmedNonEmpty(sort.value, ',');
    list := FieldsOfParts(parts, descending);
  }

  /** The loop of `SortParser.Parse`: a list filled part by part. */
  method FieldsOfParts(parts: seq<string>, descending: bool) returns (list: seq<SortField>)
    ensures list == Fields(parts, descending)
  {
    list := [];
    var i := 0;
    while i < |parts|
      invariant 0 <= i <= |parts|
      invariant list == Fields(parts[..i], descending)
    {
      var part := parts[i];
      var hasExplicitDirection := StartsWith(part, "-");
      var key := if hasExplicitDirection then part[1..] else part;
      var isDescending := hasExplicitDirection || descending;
      FieldsSnoc(parts, i, descending);
      list := list + [SortField(key, isDescending)];
      i := i + 1;
    }
    assert parts[..i] == parts;
  }

  lemma FieldsSnoc(parts: seq<string>, i: nat, descending: bool)
    requires i < |parts|
    ensures Fields(parts[..i + 1], descending) == Fields(parts[..i], descending) + [FieldOf(parts[i], descending)]
  {
    assert parts[..i + 1][..i] == parts[..i];
  }

  /** A non-empty part with a leading `-` loses exactly that character and is descending; any other is kept. */
  lemma FieldOfPart(part: string, descending: bool)
    requires part != ""
    ensures part[0] == '-' ==> FieldOf(part, descending) == SortField(part[1..], true)
    ensures part[0] != '-' ==> FieldOf(part, descending) == SortField(part, descending)
  {
  }

  /**
   * Each parsed field comes from the part at the same position: a part with a
   * leading `-` loses exactly that character and is descending; any other part
   * is kept as it is and is descending exactly when the flag asks for it.
   */
  lemma ParseFields(sort: Option<string>, descending: bool)
    ensures var r := ParseSpec(sort, descending); var parts := SortParts(sort);
      |r| == |parts| &&
      forall i :: 0 <= i < |r| ==>
        parts[i] != "" && ',' !in parts[i] &&
        (parts[i][0] == '-' ==> r[i].field == parts[i][1..] && r[i].descending) &&
        (parts[i][0] != '-' ==> r[i].field == parts[i] && r[i].descending == descending)
  {
    var parts := SortParts(sort);
    var r := ParseSpec(sort, descending);
    forall i | 0 <= i < |r|
      ensures parts[i] != "" && ',' !in parts[i] &&
        (parts[i][0] == '-' ==> r[i].field == parts[i][1..] && r[i].descending) &&
        (parts[i][0] != '-' ==> r[i].field == parts[i] && r[i].descending == descending)
    {
      assert parts[i] in parts;
      FieldOfPart(parts[i], descending);
    }
  }

  /** With the flag set every field is descending; without it, exactly the `-` ones are. */
  lemma ParseDirections(sort: Option<string>, descending: bool)
    ensures var r := ParseSpec(sort, descending);
      (descending ==> forall i :: 0 <= i < |r| ==> r[i].descending) &&
      (!descending ==> forall i :: 0 <= i < |r| ==> (r[i].descending <==> SortParts(sort)[i][0] == '-'))
  {
    ParseFields(sort, descending);
  }

  /** A sort string naming one field, without a dash, commas or surrounding white space, parses to that field alone. */
  lemma SingleFieldParses(s: string, descending: bool)
    requires Renderable(SortField(s, descending))
    ensures ParseSpec(Some(s), descending) == [SortField(s, descending)]
  {
    assert !IsBlank(s) by {
      assert !IsWhiteSpace(s[0]);
    }
    assert SortParts(Some(s)) == [s] by {
      SplitWithoutSeparator(s, ',');
      TrimOfTrimmed(s);
      assert Select([s], Trim) == [s];
      assert Where([s], NonEmpty) == [s] by {
        assert [s][1..] == [];
      }
    }
    FieldOfPart(s, descending);
  }

  /** A missing or all-white-space sort string parses to no field at all. */
  lemma BlankSortParsesToNothing(sort: Option<string>, descending: bool)
    requires sort.Some? ==> IsBlank(sort.value)
    ensures ParseSpec(sort, descending) == []
  {
  }

  /** The sort string `-` gives one descending field with an empty name. */
  lemma LoneDashGivesEmptyField(descending: bool)
    ensures ParseSpec(Some("-"), descending) == [SortField("", true)]
  {
    assert !IsBlank("-") by { assert !IsWhiteSpace("-"[0]); }
    SplitWithoutSeparator("-", ',');
    assert Trim("-") == "-" by { TrimOfTrimmed("-"); }
    assert Select(Split("-", ','), Trim) == ["-"];
    assert SplitTrimmedNonEmpty("-", ',') == ["-"];
  }

  lemma TrimOfTrimmed(s: string)
    requires s != [] && !IsWhiteSpace(s[0]) && !IsWhiteSpace(s[|s| - 1])
    ensures Trim(s) == s
  {
  }

  /** How a field is written in a sort string: its name, after a `-` when it is descending. */
  function Token(f: SortField): string
  {
    (if f.descending then "-" else "") + f.field
  }

  function Tokens(fs: seq<SortField>): (r: seq<string>)
    ensures |r| == |fs| && forall i :: 0 <= i < |fs| ==> r[i] == Token(fs[i])
  {
    if fs == [] then [] else [Token(fs[0])] + Tokens(fs[1..])
  }

  /** The sort string that asks for a list of fields. */
  function Render(fs: seq<SortField>): string
  {
    Join([','], Tokens(fs))
  }

  /** A field name a sort string can carry unchanged: not empty, no comma, no leading `-`, no white space at its ends. */
  predicate Renderable(f: SortField)
  {
    f.field != "" && ',' !in f.field && f.field[0] != '-' &&
    !IsWhiteSpace(f.field[0]) && !IsWhiteSpace(f.field[|f.field| - 1])
  }

  lemma JoinStartsWithFirst(sep: string, parts: seq<string>)
    requires |parts| >= 1
    ensures StartsWith(Join(sep, parts), parts[0])
  {
  }

  /** A piece that splitting on commas and trimming leaves as it is. */
  predicate CleanToken(p: string)
  {
    p != [] && ',' !in p && !IsWhiteSpace(p[0]) && !IsWhiteSpace(p[|p| - 1])
  }

  lemma TokenIsClean(f: SortField)
    requires Renderable(f)
    ensures CleanToken(Token(f))
  {
    if f.descending {
      assert Token(f) == "-" + f.field;
    } else {
      assert Token(f) == f.field;
    }
  }

  lemma TrimAllClean(tokens: seq<string>)
    requires forall i :: 0 <= i < |tokens| ==> CleanToken(tokens[i])
    ensures Select(tokens, Trim) == tokens
  {
    var trimmed := Select(tokens, Trim);
    forall i | 0 <= i < |tokens| ensures trimmed[i] == tokens[i] {
      TrimOfTrimmed(tokens[i]);
    }
  }

  /** Comma-joined clean pieces split, trim and filter back into themselves. */
  lemma SplitCleanTokens(tokens: seq<string>)
    requires tokens != [] && forall i :: 0 <= i < |tokens| ==> CleanToken(tokens[i])
    ensures SplitTrimmedNonEmpty(Join([','], tokens), ',') == tokens
  {
    SplitJoin(tokens, ',');
    TrimAllClean(tokens);
    WhereAll(tokens, NonEmpty);
  }

  /** A rendered list of clean fields splits back into its tokens. */
  lemma RenderSplitsIntoTokens(fs: seq<SortField>)
    requires fs != [] && forall i :: 0 <= i < |fs| ==> Renderable(fs[i])
    ensures SplitTrimmedNonEmpty(Render(fs), ',') == Tokens(fs)
  {
    var tokens := Tokens(fs);
    forall i | 0 <= i < |tokens| ensures CleanToken(tokens[i]) {
      TokenIsClean(fs[i]);
    }
    SplitCleanTokens(tokens);
  }

  /** A rendered non-empty list of clean fields is not blank. */
  lemma RenderNotBlank(fs: seq<SortField>)
    requires fs != [] && Renderable(fs[0])
    ensures !IsBlank(Render(fs))
  {
    var tokens := Tokens(fs);
    JoinStartsWithFirst([','], tokens);
    assert Render(fs)[0] == tokens[0][0];
  }

  lemma FieldOfToken(f: SortField)
    requires Renderable(f)
    ensures FieldOf(Token(f), false) == f
  {
    if f.descending {
      assert Token(f)[1..] == f.field;
    } else {
      assert Token(f) == f.field;
    }
  }

  /** Reading the tokens of clean fields back, without the global flag, gives the fields. */
  lemma FieldsOfTokens(fs: seq<SortField>)
    requires forall i :: 0 <= i < |fs| ==> Renderable(fs[i])
    ensures Fields(Tokens(fs), false) == fs
  {
    var tokens := Tokens(fs);
    forall i | 0 <= i < |fs| ensures Fields(tokens, false)[i] == fs[i] {
      FieldOfToken(fs[i]);
    }
  }

  /** Parsing the rendering of a list of fields, without the global flag, gives the list back. */
  lemma ParseRender(fs: seq<SortField>)
    requires fs != [] && forall i :: 0 <= i < |fs| ==> Renderable(fs[i])
    ensures ParseSpec(Some(Render(fs)), false) == fs
  {
    RenderNotBlank(fs);
    ParseOfNonBlank(Render(fs), false);
    RenderSplitsIntoTokens(fs);
    FieldsOfTokens(fs);
  }

  /** A sort string that is not blank is parsed from its non-empty trimmed comma pieces. */
  lemma ParseOfNonBlank(sort: string, descending: bool)
    requires !IsBlank(sort)
    ensures ParseSpec(Some(sort), descending) == Fields(SplitTrimmedNonEmpty(sort, ','), descending)
  {
  }

  // ---------------------------------------------------------------------
  // SortExpression and QueryState
  // ---------------------------------------------------------------------

  /** One ordering: the key selector, named by the entity's key type `K`, and its direction. */
  datatype SortExpression<K> = SortExpression(key: K, descending: bool)

  /**
   * `QueryState<T>`: the page number (`Skip`) and page size (`Take`), the filter,
   * the orderings in priority order and the navigations to include.
   */
  datatype QueryState<!T, K> = QueryState(
    skip: int32,
    take: int32,
    criteria: Option<T -> bool>,
    sort: seq<SortExpression<K>>,
    includes: seq<string>)

  /** A query state as `new QueryState<T>()` creates it. */
  function DefaultQueryState<T, K>(): (q: QueryState<T, K>)
    ensures q.skip == 1 && q.take == 20 && q.criteria.None? && q.sort == [] && q.includes == []
  {
    QueryState(1, 20, None, [], [])
  }

  /** The rows a query state's filter lets through: all of them without a filter. */
  function Filter<T(!new), K>(rows: seq<T>, state: QueryState<T, K>): (r: seq<T>)
    ensures forall x :: x in r <==> x in rows && (state.criteria.None? || state.criteria.value(x))
  {
    match state.criteria
    case None => rows
    case Some(p) => Where(rows, p)
  }

  // ---------------------------------------------------------------------
  // Page and slice results
  // ---------------------------------------------------------------------

  /**
   * Ceiling of the quotient of two `int` values, for a positive divisor. The
   * source divides in `double` and rounds up; for operands in `int` range the
   * double quotient is never rounded onto the wrong side of an integer, so the
   * result is the exact ceiling.
   */
  function CeilDiv(a: int, b: int): (c: int)
    requires b > 0
    ensures (c - 1) * b < a <= c * b
  {
    -((-a) / b)
  }

  /** A ceiling quotient of an `int` by a positive `int` is again in `int` range. */
  lemma CeilDivInRange(a: int32, b: int32)
    requires b > 0
    ensures MinValue <= CeilDiv(a, b) <= MaxValue
  {
    var c := CeilDiv(a, b);
    if c > 0 {
      MulByPositive(c - 1, b);
    } else if c < 0 {
      MulByPositive(c, b);
    }
  }

  /** Multiplying by a positive `int` moves a value away from zero. */
  lemma MulByPositive(x: int, b: int)
    requires b >= 1
    ensures x >= 0 ==> x * b >= x
    ensures x < 0 ==> x * b <= x
  {
    assert x * b == x + x * (b - 1);
    if x >= 0 {
      assert x * (b - 1) >= 0;
    } else {
      assert x * (b - 1) <= 0;
    }
  }

  /** `PagedResult<T>`: one page, the page number and size asked for, and the total row count. */
  datatype PagedResult<T> = PagedResult(items: seq<T>, pageNumber: int32, pageSize: int32, totalCount: int32)
  {
    /** `TotalPages`: zero without a positive page size, else the count divided by the size, rounded up. */
    function TotalPages(): (r: int32)
      ensures pageSize <= 0 ==> r == 0
      ensures pageSize > 0 ==> (r - 1) * pageSize < totalCount <= r * pageSize
    {
      if pageSize <= 0 then 0
      else
        CeilDivInRange(totalCount, pageSize);
        CeilDiv(totalCount, pageSize)
    }

    function HasPreviousPage(): bool { pageNumber > 1 }

    function HasNextPage(): bool { pageNumber < TotalPages() }
  }

  lemma MulMonotone(x: int, y: int, b: int)
    requires x <= y && b > 0
    ensures x * b <= y * b
  {
  }

  /** With a positive page size, there is a next page exactly when the rows go beyond the current one. */
  lemma HasNextPageMeaning<T>(p: PagedResult<T>)
    requires p.pageSize > 0
    ensures p.HasNextPage() <==> p.pageNumber * p.pageSize < p.totalCount
  {
    var c := p.TotalPages();
    if p.pageNumber < c {
      MulMonotone(p.pageNumber, c - 1, p.pageSize);
    } else {
      MulMonotone(c, p.pageNumber, p.pageSize);
    }
  }

  /** Without a positive page size there are no pages, so no non-negative page number has a next one. */
  lemma NoNextPageWithoutSize<T>(p: PagedResult<T>)
    requires p.pageSize <= 0 && p.pageNumber >= 0
    ensures p.TotalPages() == 0 && !p.HasNextPage()
  {
  }

  /** `TotalPages` is the fewest pages of that size holding every row. */
  lemma TotalPagesIsFewest<T>(p: PagedResult<T>, n: int)
    requires p.pageSize > 0 && p.totalCount >= 0 && n >= 0 && n * p.pageSize >= p.totalCount
    ensures p.TotalPages() <= n
  {
    if p.TotalPages() > n {
      MulMonotone(n, p.TotalPages() - 1, p.pageSize);
    }
  }

  /** `SliceResult<T>`: one page without a total count, and whether a row follows it. */
  datatype SliceResult<T> = SliceResult(items: seq<T>, pageNumber: int32, pageSize: int32, hasNextPage: bool)
  {
    function HasPreviousPage(): bool { pageNumber > 1 }
  }

  /** `PagedResponse<T>`: what a list handler returns; the totals are present only on the counted path. */
  datatype PagedResponse<T> = PagedResponse(
    items: seq<T>,
    pageNumber: int32,
    pageSize: int32,
    hasPreviousPage: bool,
    hasNextPage: bool,
    totalCount: Option<int32>,
    totalPages: Option<int32>)

  /** The response of the counted path: the page's items mapped, its numbers and both totals. */
  function PagedResponseOf<T, D>(paged: PagedResult<T>, toDto: T -> D): PagedResponse<D>
  {
    PagedResponse(Select(paged.items, toDto), paged.pageNumber, paged.pageSize,
      paged.HasPreviousPage(), paged.HasNextPage(), Some(paged.totalCount), Some(paged.TotalPages()))
  }

  /** The response of the slice path: the slice's items mapped and its numbers, with no totals. */
  function SliceResponseOf<T, D>(slice: SliceResult<T>, toDto: T -> D): PagedResponse<D>
  {
    PagedResponse(Select(slice.items, toDto), slice.pageNumber, slice.pageSize,
      slice.HasPreviousPage(), slice.hasNextPage, None, None)
  }
}
