/**
 * The Orders module's read side: the DTO mappings, the sort-key tables of
 * `OrdersSorting` and `OrderLinesSorting`, and the handlers of the order
 * and order-line list queries.
 *
 * Both key tables compare the lower-cased field name against literals that
 * hold capitals ("customerId", "productName", "unitPrice", "orderId"), so
 * those entries never match; the lemmas below state what the tables
 * therefore recognise.
 */
module OrdersApplication {
  import opened Wrappers
  import opened Int32
  import opened Linq
  import opened Text
  import opened Values
  import opened Querying
  import opened ReadRepository
  import opened Sorting
  import opened ListHandler
  import opened OrdersDomain

  // ---------------------------------------------------------------------
  // OrdersMapping
  // ---------------------------------------------------------------------

  datatype OrderLineDto = OrderLineDto(id: Guid, productName: string, quantity: int32, unitPrice: Decimal)

  datatype OrderDto = OrderDto(id: Guid, customerId: Guid, createdAt: DateTime, lines: seq<OrderLineDto>, total: Decimal)

  /** `DomainToDto(OrderLine)`: the line's fields except the order it belongs to. */
  function LineToDto(l: OrderLine): (d: OrderLineDto)
    ensures d.id == l.id && d.productName == l.productName && d.quantity == l.quantity && d.unitPrice == l.unitPrice
  {
    OrderLineDto(l.id, l.productName, l.quantity, l.unitPrice)
  }

  /** The line DTO does not carry `OrderId`: lines that differ only in it map alike. */
  lemma LineToDtoForgetsOrderId(l: OrderLine, orderId: Guid)
    ensures LineToDto(l.(orderId := orderId)) == LineToDto(l)
  {
  }

  /** `DomainToDto(IEnumerable<OrderLine>)`: one DTO per line, in order. */
  function LinesToDtos(ls: seq<OrderLine>): (ds: seq<OrderLineDto>)
    ensures |ds| == |ls|
    ensures forall i :: 0 <= i < |ls| ==> ds[i] == LineToDto(ls[i])
  {
    Select(ls, LineToDto)
  }

  /** `DomainToDto(Order)`: the order's identity and time, its lines mapped in order, and its total. */
  function DomainToDto(o: OrderRecord): (d: OrderDto)
    ensures d.id == o.id && d.customerId == o.customerId && d.createdAt == o.createdAt
    ensures d.lines == LinesToDtos(o.lines)
    ensures d.total == LinesTotal(o.lines)
  {
    OrderDto(o.id, o.customerId, o.createdAt, LinesToDtos(o.lines), LinesTotal(o.lines))
  }

  /** `DomainToDto(IEnumerable<Order>)`: one DTO per order, in order. */
  function DomainToDtos(os: seq<OrderRecord>): (ds: seq<OrderDto>)
    ensures |ds| == |os|
    ensures forall i :: 0 <= i < |os| ==> ds[i] == DomainToDto(os[i])
  {
    Select(os, DomainToDto)
  }

  /** The sum of the line DTOs' amounts. */
  function DtoLinesTotal(ds: seq<OrderLineDto>): Decimal
    decreases |ds|
  {
    if ds == [] then 0.0
    else DtoLinesTotal(ds[..|ds| - 1]) + ds[|ds| - 1].quantity as real * ds[|ds| - 1].unitPrice
  }

  /** An order DTO's total agrees with its own lines. */
  lemma {:induction false} DtoTotalMatchesLines(o: OrderRecord)
    ensures DomainToDto(o).total == DtoLinesTotal(DomainToDto(o).lines)
  {
    LinesTotalOfDtos(o.lines);
  }

  lemma {:induction false} LinesTotalOfDtos(ls: seq<OrderLine>)
    ensures LinesTotal(ls) == DtoLinesTotal(LinesToDtos(ls))
    decreases |ls|
  {
    if ls != [] {
      var init := ls[..|ls| - 1];
      LinesTotalOfDtos(init);
      assert LinesToDtos(ls)[..|ls| - 1] == LinesToDtos(init);
    }
  }

  // ---------------------------------------------------------------------
  // OrdersSorting
  // ---------------------------------------------------------------------

  datatype OrderKey = CustomerId | CreatedAt

  /** The `if`/`else if` chain of `OrdersSorting` on the lower-cased field name. */
  function OrderKeyTable(key: string): Option<OrderKey>
  {
    if key == "customerId" then Some(CustomerId)
    else if key == "createdat" then Some(CreatedAt)
    else None
  }

  /** Without a recognised field: the newest orders first. */
  const DefaultOrderSort: SortExpression<OrderKey> := SortExpression(CreatedAt, true)

  /** `OrdersSorting.ToSortExpressions`. */
  method OrdersToSortExpressions(sort: Option<string>, descending: bool) returns (list: seq<SortExpression<OrderKey>>)
    ensures list == SortSpec(sort, descending, OrderKeyTable, DefaultOrderSort)
    ensures list != []
  {
    list := Sorting.ToSortExpressions(sort, descending, OrderKeyTable, DefaultOrderSort);
  }

  /** Only `createdat`, in any letter case, is recognised: the `customerId` entry is unreachable. */
  lemma OnlyCreatedAtSortsOrders(f: SortField)
    ensures ExpressionOf(f, OrderKeyTable) ==
      if ToLowerInvariant(f.field) == "createdat" then Some(SortExpression(CreatedAt, f.descending)) else None
  {
    NeverLowered(f.field, "customerId", 8);
  }

  /** The number of fields whose lower-cased name is `createdat`. */
  function CreatedAtFields(fields: seq<SortField>): nat
    decreases |fields|
  {
    if fields == [] then 0
    else CreatedAtFields(fields[..|fields| - 1]) + (if ToLowerInvariant(fields[|fields| - 1].field) == "createdat" then 1 else 0)
  }

  lemma {:induction false} RecognisedOrderFields(fields: seq<SortField>)
    ensures |Recognised(fields, OrderKeyTable)| == CreatedAtFields(fields)
    ensures forall j :: 0 <= j < |Recognised(fields, OrderKeyTable)| ==> Recognised(fields, OrderKeyTable)[j].key == CreatedAt
    decreases |fields|
  {
    if fields != [] {
      RecognisedOrderFields(fields[..|fields| - 1]);
      OnlyCreatedAtSortsOrders(fields[|fields| - 1]);
    }
  }

  /** An order sort has one `CreatedAt` ordering per `createdat` field, or just the default when there is none. */
  lemma OrdersSortLength(sort: Option<string>, descending: bool)
    ensures var n := CreatedAtFields(ParseSpec(sort, descending));
      |SortSpec(sort, descending, OrderKeyTable, DefaultOrderSort)| == (if n == 0 then 1 else n)
    ensures forall e :: e in SortSpec(sort, descending, OrderKeyTable, DefaultOrderSort) ==> e.key == CreatedAt
  {
    var fields := ParseSpec(sort, descending);
    SortSpecOfFields(sort, descending, OrderKeyTable, DefaultOrderSort, fields);
    OrderSortOfFields(fields);
  }

  lemma OrderSortOfFields(fields: seq<SortField>)
    ensures var n := CreatedAtFields(fields);
      var r := if fields == [] || Recognised(fields, OrderKeyTable) == [] then [DefaultOrderSort] else Recognised(fields, OrderKeyTable);
      |r| == (if n == 0 then 1 else n) && forall e :: e in r ==> e.key == CreatedAt
  {
    RecognisedOrderFields(fields);
    if fields == [] {
      assert CreatedAtFields(fields) == 0;
    }
  }

  // ---------------------------------------------------------------------
  // OrderLinesSorting
  // ---------------------------------------------------------------------

  datatype OrderLineKey = ProductName | Quantity | UnitPrice | OrderId

  /** The `if`/`else if` chain of `OrderLinesSorting` on the lower-cased field name. */
  function LineKeyTable(key: string): Option<OrderLineKey>
  {
    if key == "productName" then Some(ProductName)
    else if key == "quantity" then Some(Quantity)
    else if key == "unitPrice" then Some(UnitPrice)
    else if key == "orderId" then Some(OrderId)
    else None
  }

  /** Without a recognised field: product names in descending order. */
  const DefaultLineSort: SortExpression<OrderLineKey> := SortExpression(ProductName, true)

  /** `OrderLinesSorting.ToSortExpressions`. */
  method LinesToSortExpressions(sort: Option<string>, descending: bool) returns (list: seq<SortExpression<OrderLineKey>>)
    ensures list == SortSpec(sort, descending, LineKeyTable, DefaultLineSort)
    ensures list != []
  {
    list := Sorting.ToSortExpressions(sort, descending, LineKeyTable, DefaultLineSort);
  }

  /** Only `quantity`, in any letter case, is recognised: the other three entries are unreachable. */
  lemma OnlyQuantitySortsLines(f: SortField)
    ensures ExpressionOf(f, LineKeyTable) ==
      if ToLowerInvariant(f.field) == "quantity" then Some(SortExpression(Quantity, f.descending)) else None
  {
    NeverLowered(f.field, "productName", 7);
    NeverLowered(f.field, "unitPrice", 4);
    NeverLowered(f.field, "orderId", 5);
  }

  /** A sort that names no `quantity` field, such as one by product name, gets the default, whatever its direction. */
  lemma NoQuantityFieldGivesDefault(sort: Option<string>, descending: bool)
    requires forall i :: 0 <= i < |ParseSpec(sort, descending)| ==> ToLowerInvariant(ParseSpec(sort, descending)[i].field) != "quantity"
    ensures SortSpec(sort, descending, LineKeyTable, DefaultLineSort) == [DefaultLineSort]
  {
    var fields := ParseSpec(sort, descending);
    forall i | 0 <= i < |fields| ensures ExpressionOf(fields[i], LineKeyTable).None? {
      OnlyQuantitySortsLines(fields[i]);
    }
    NothingRecognisedFallsBack(sort, descending, LineKeyTable, DefaultLineSort);
  }

  /** A sort by one plain field other than `quantity`, such as `productName`, gets the default, whatever its direction. */
  lemma SingleOtherFieldGivesDefault(s: string, descending: bool)
    requires Renderable(SortField(s, descending)) && ToLowerInvariant(s) != "quantity"
    ensures SortSpec(Some(s), descending, LineKeyTable, DefaultLineSort) == [DefaultLineSort]
  {
    SingleFieldParses(s, descending);
    NoQuantityFieldGivesDefault(Some(s), descending);
  }

  // ---------------------------------------------------------------------
  // GetOrdersQueryHandler
  // ---------------------------------------------------------------------

  /** `GetOrdersQuery`, without the request headers the handler does not read. */
  datatype GetOrdersQuery = GetOrdersQuery(
    pageNumber: int32,
    pageSize: int32,
    includeTotalCount: bool,
    customerIdFilter: Option<string>,
    createdFrom: Option<DateTime>,
    createdTo: Option<DateTime>,
    sortBy: Option<string>,
    descending: bool)

  /** Only the creation bounds count as filters. */
  predicate HasOrderFilter(q: GetOrdersQuery)
  {
    q.createdFrom.Some? || q.createdTo.Some?
  }

  /** The criteria expression: inside whichever creation bounds are given, inclusive. */
  predicate OrderMatches(q: GetOrdersQuery, o: OrderRecord)
  {
    (q.createdFrom.None? || o.createdAt >= q.createdFrom.value) &&
    (q.createdTo.None? || o.createdAt <= q.createdTo.value)
  }

  function OrderCriterion(q: GetOrdersQuery): OrderRecord -> bool
  {
    o => OrderMatches(q, o)
  }

  /** The navigation every order query loads. */
  const OrderLinesInclude: string := "OrderLines"

  /** The query state the orders handler hands to the repository. */
  function OrdersStateOf(q: GetOrdersQuery): (s: QueryState<OrderRecord, OrderKey>)
    ensures s.skip == q.pageNumber && s.take == q.pageSize && s.includes == [OrderLinesInclude]
    ensures s.criteria.None? <==> !HasOrderFilter(q)
    ensures s.sort == SortSpec(q.sortBy, q.descending, OrderKeyTable, DefaultOrderSort)
  {
    QueryState(q.pageNumber, q.pageSize, if HasOrderFilter(q) then Some(OrderCriterion(q)) else None,
               SortSpec(q.sortBy, q.descending, OrderKeyTable, DefaultOrderSort), [OrderLinesInclude])
  }

  /** The orders the query considers are exactly those of the source inside the creation bounds. */
  lemma FilteredOrders(q: GetOrdersQuery, source: seq<OrderRecord>, o: OrderRecord)
    ensures o in Filter(source, OrdersStateOf(q)) <==> o in source && OrderMatches(q, o)
  {
  }

  /** `GetOrdersQueryHandler.Handle` over the orders `source`, with the database ordering the rows. */
  method HandleOrders(q: GetOrdersQuery, source: seq<OrderRecord>, database: Query<OrderRecord, OrderKey> -> seq<OrderRecord>)
    returns (response: PagedResponse<OrderDto>)
    requires q.includeTotalCount ==> |database(QueryOf(source, OrdersStateOf(q)))| <= MaxValue
    ensures response == ResponseFor(source, OrdersStateOf(q), q.includeTotalCount, database, DomainToDto)
  {
    var criteria: Option<OrderRecord -> bool> := None;
    var hasAnyFilter := HasOrderFilter(q);
    if hasAnyFilter {
      criteria := Some(OrderCriterion(q));
    }
    var sortExpressions := OrdersToSortExpressions(q.sortBy, q.descending);
    response := Respond(q.pageNumber, q.pageSize, q.includeTotalCount, criteria, sortExpressions, [OrderLinesInclude],
                        source, database, DomainToDto);
  }

  /** `CustomerIdFilter` never changes the response. */
  lemma CustomerIdFilterIgnored(q: GetOrdersQuery, customerIdFilter: Option<string>, source: seq<OrderRecord>,
                                database: Query<OrderRecord, OrderKey> -> seq<OrderRecord>)
    requires q.includeTotalCount ==> |database(QueryOf(source, OrdersStateOf(q)))| <= MaxValue
    ensures var q' := q.(customerIdFilter := customerIdFilter);
      (q.includeTotalCount ==> |database(QueryOf(source, OrdersStateOf(q')))| <= MaxValue) &&
      ResponseFor(source, OrdersStateOf(q'), q.includeTotalCount, database, DomainToDto) ==
      ResponseFor(source, OrdersStateOf(q), q.includeTotalCount, database, DomainToDto)
  {
    var q' := q.(customerIdFilter := customerIdFilter);
    if HasOrderFilter(q) {
      WhereSamePredicate(source, OrderCriterion(q), OrderCriterion(q'));
    }
    SameQuerySameResponse(source, OrdersStateOf(q), OrdersStateOf(q'), q.includeTotalCount, database, DomainToDto);
  }

  // ---------------------------------------------------------------------
  // GetOrderLinesQueryHandler
  // ---------------------------------------------------------------------

  /** `GetOrderLinesQuery`, without the request headers the handler does not read. */
  datatype GetOrderLinesQuery = GetOrderLinesQuery(
    pageNumber: int32,
    pageSize: int32,
    includeTotalCount: bool,
    productNameFilter: Option<string>,
    quantityFilter: Option<int32>,
    unitPriceFilter: Option<Decimal>,
    orderIdFilter: Option<Guid>,
    sortBy: Option<string>,
    descending: bool)

  /** A blank product-name filter counts as absent; an order-id filter counts. */
  predicate HasLineFilter(q: GetOrderLinesQuery)
  {
    !IsNullOrWhiteSpace(q.productNameFilter) || q.quantityFilter.Some? || q.unitPriceFilter.Some? || q.orderIdFilter.Some?
  }

  /** The criteria expression: product name, quantity and price, each when given; the order id is not consulted. */
  predicate LineMatches(q: GetOrderLinesQuery, l: OrderLine)
  {
    (IsNullOrWhiteSpace(q.productNameFilter) || Contains(l.productName, q.productNameFilter.value)) &&
    (q.quantityFilter.None? || l.quantity == q.quantityFilter.value) &&
    (q.unitPriceFilter.None? || l.unitPrice == q.unitPriceFilter.value)
  }

  function LineCriterion(q: GetOrderLinesQuery): OrderLine -> bool
  {
    l => LineMatches(q, l)
  }

  /** The query state the order-lines handler hands to the repository. */
  function LinesStateOf(q: GetOrderLinesQuery): (s: QueryState<OrderLine, OrderLineKey>)
    ensures s.skip == q.pageNumber && s.take == q.pageSize && s.includes == []
    ensures s.criteria.None? <==> !HasLineFilter(q)
    ensures s.sort == SortSpec(q.sortBy, q.descending, LineKeyTable, DefaultLineSort)
  {
    QueryState(q.pageNumber, q.pageSize, if HasLineFilter(q) then Some(LineCriterion(q)) else None,
               SortSpec(q.sortBy, q.descending, LineKeyTable, DefaultLineSort), [])
  }

  /** An order-id filter on its own yields a criteria, and it accepts every line. */
  lemma OrderIdFilterAloneAcceptsEveryLine(q: GetOrderLinesQuery, l: OrderLine)
    requires q.orderIdFilter.Some? && IsNullOrWhiteSpace(q.productNameFilter) && q.quantityFilter.None? && q.unitPriceFilter.None?
    ensures LinesStateOf(q).criteria.Some? && LinesStateOf(q).criteria.value(l)
  {
  }

  /** The lines the query considers are those of the source that match the product, quantity and price filters. */
  lemma FilteredLines(q: GetOrderLinesQuery, source: seq<OrderLine>, l: OrderLine)
    ensures l in Filter(source, LinesStateOf(q)) <==> l in source && LineMatches(q, l)
  {
  }

  /** `GetOrderLinesQueryHandler.Handle` over the lines `source`, with the database ordering the rows. */
  method HandleOrderLines(q: GetOrderLinesQuery, source: seq<OrderLine>, database: Query<OrderLine, OrderLineKey> -> seq<OrderLine>)
    returns (response: PagedResponse<OrderLineDto>)
    requires q.includeTotalCount ==> |database(QueryOf(source, LinesStateOf(q)))| <= MaxValue
    ensures response == ResponseFor(source, LinesStateOf(q), q.includeTotalCount, database, LineToDto)
  {
    var criteria: Option<OrderLine -> bool> := None;
    var hasAnyFilter := HasLineFilter(q);
    if hasAnyFilter {
      criteria := Some(LineCriterion(q));
    }
    var sortExpressions := LinesToSortExpressions(q.sortBy, q.descending);
    response := Respond(q.pageNumber, q.pageSize, q.includeTotalCount, criteria, sortExpressions, [],
                        source, database, LineToDto);
  }

  /** `OrderIdFilter` never changes the response: with it or without it, the same lines come back. */
  lemma OrderIdFilterIgnored(q: GetOrderLinesQuery, orderIdFilter: Option<Guid>, source: seq<OrderLine>,
                             database: Query<OrderLine, OrderLineKey> -> seq<OrderLine>)
    requires q.includeTotalCount ==> |database(QueryOf(source, LinesStateOf(q)))| <= MaxValue
    ensures var q' := q.(orderIdFilter := orderIdFilter);
      (q.includeTotalCount ==> |database(QueryOf(source, LinesStateOf(q')))| <= MaxValue) &&
      ResponseFor(source, LinesStateOf(q'), q.includeTotalCount, database, LineToDto) ==
      ResponseFor(source, LinesStateOf(q), q.includeTotalCount, database, LineToDto)
  {
    var q' := q.(orderIdFilter := orderIdFilter);
    assert Filter(source, LinesStateOf(q)) == Filter(source, LinesStateOf(q')) by {
      if HasLineFilter(q) && HasLineFilter(q') {
        WhereSamePredicate(source, LineCriterion(q), LineCriterion(q'));
      } else if HasLineFilter(q) {
        WhereAll(source, LineCriterion(q));
      } else if HasLineFilter(q') {
        WhereAll(source, LineCriterion(q'));
      }
    }
    SameQuerySameResponse(source, LinesStateOf(q), LinesStateOf(q'), q.includeTotalCount, database, LineToDto);
  }
}
