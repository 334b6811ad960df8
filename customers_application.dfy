/**
 * The Customers module's read side: the DTO mapping, the sort-key table of
 * `CustomersSorting` and `GetCustomersQueryHandler`.
 */
module CustomersApplication {
  import opened Wrappers
  import opened Int32
  import opened Linq
  import opened Text
  import opened Values
  import opened Querying
  import opened ReadRepository
  import opened Sorting
  import opened ListHandler
  import opened CustomersDomain

  // ---------------------------------------------------------------------
  // CustomersMapping
  // ---------------------------------------------------------------------

  datatype CustomerDto = CustomerDto(id: Guid, name: string, email: string, status: CustomerStatus, createdAt: DateTime)

  /** `DomainToDto(Customer)`: every field is carried over. */
  function DomainToDto(c: CustomerRecord): (d: CustomerDto)
    ensures d.id == c.id && d.name == c.name && d.email == c.email
    ensures d.status == c.status && d.createdAt == c.createdAt
  {
    CustomerDto(c.id, c.name, c.email, c.status, c.createdAt)
  }

  /** `DomainToDto(IEnumerable<Customer>)`: one DTO per customer, in order. */
  function DomainToDtos(cs: seq<CustomerRecord>): (ds: seq<CustomerDto>)
    ensures |ds| == |cs|
    ensures forall i :: 0 <= i < |cs| ==> ds[i] == DomainToDto(cs[i])
  {
    Select(cs, DomainToDto)
  }

  /** The customer a DTO describes. */
  function RecordOf(d: CustomerDto): CustomerRecord
  {
    CustomerRecord(d.id, d.name, d.email, d.status, d.createdAt)
  }

  /** The mapping loses nothing: the customer can be read back from its DTO. */
  lemma DtoRoundTrip(c: CustomerRecord)
    ensures RecordOf(DomainToDto(c)) == c
  {
  }

  /** So the collection mapping is injective: equal DTO lists come from equal customer lists. */
  lemma DomainToDtosInjective(a: seq<CustomerRecord>, b: seq<CustomerRecord>)
    requires DomainToDtos(a) == DomainToDtos(b)
    ensures a == b
  {
    assert |a| == |b|;
    forall i | 0 <= i < |a| ensures a[i] == b[i] {
      DtoRoundTrip(a[i]);
      DtoRoundTrip(b[i]);
      assert DomainToDtos(a)[i] == DomainToDtos(b)[i];
    }
  }

  // ---------------------------------------------------------------------
  // CustomersSorting
  // ---------------------------------------------------------------------

  /** The customer properties a sort can use. */
  datatype CustomerKey = Name | Email | Status | CreatedAt

  /** The `if`/`else if` chain on the lower-cased field name. */
  function KeyTable(key: string): Option<CustomerKey>
  {
    if key == "name" then Some(Name)
    else if key == "email" then Some(Email)
    else if key == "status" then Some(Status)
    else if key == "createdat" then Some(CreatedAt)
    else None
  }

  /** The lower-case name each key answers to. */
  function KeyName(k: CustomerKey): string
  {
    match k
    case Name => "name"
    case Email => "email"
    case Status => "status"
    case CreatedAt => "createdat"
  }

  /** The table recognises exactly the four lower-case names, each for its own key. */
  lemma KeyTableInverse(key: string, k: CustomerKey)
    ensures KeyTable(key) == Some(k) <==> key == KeyName(k)
  {
  }

  /** A field is recognised, in any letter case, exactly when its lower-cased name is a key's name. */
  lemma FieldMatchesInAnyCase(f: SortField, k: CustomerKey)
    ensures ExpressionOf(f, KeyTable) == Some(SortExpression(k, f.descending)) <==> ToLowerInvariant(f.field) == KeyName(k)
  {
    KeyTableInverse(ToLowerInvariant(f.field), k);
  }

  /** Without a recognised field: the newest customers first. */
  const DefaultSort: SortExpression<CustomerKey> := SortExpression(CreatedAt, true)

  /** `CustomersSorting.ToSortExpressions`. */
  method ToSortExpressions(sort: Option<string>, descending: bool) returns (list: seq<SortExpression<CustomerKey>>)
    ensures list == SortSpec(sort, descending, KeyTable, DefaultSort)
    ensures list != []
  {
    list := Sorting.ToSortExpressions(sort, descending, KeyTable, DefaultSort);
  }

  // ---------------------------------------------------------------------
  // GetCustomersQueryHandler
  // ---------------------------------------------------------------------

  /** `GetCustomersQuery`, without the request headers the handler does not read. */
  datatype GetCustomersQuery = GetCustomersQuery(
    pageNumber: int32,
    pageSize: int32,
    includeTotalCount: bool,
    nameFilter: Option<string>,
    emailFilter: Option<string>,
    statusFilter: Option<CustomerStatus>,
    createdFrom: Option<DateTime>,
    createdTo: Option<DateTime>,
    sortBy: Option<string>,
    descending: bool)

  /** A blank name or e-mail filter counts as absent. */
  predicate HasAnyFilter(q: GetCustomersQuery)
  {
    !IsNullOrWhiteSpace(q.nameFilter) || !IsNullOrWhiteSpace(q.emailFilter) ||
    q.statusFilter.Some? || q.createdFrom.Some? || q.createdTo.Some?
  }

  /** The criteria expression: each given filter must hold; the creation bounds are inclusive. */
  predicate Matches(q: GetCustomersQuery, c: CustomerRecord)
  {
    (IsNullOrWhiteSpace(q.nameFilter) || Contains(c.name, q.nameFilter.value)) &&
    (IsNullOrWhiteSpace(q.emailFilter) || Contains(c.email, q.emailFilter.value)) &&
    (q.statusFilter.None? || c.status == q.statusFilter.value) &&
    (q.createdFrom.None? || c.createdAt >= q.createdFrom.value) &&
    (q.createdTo.None? || c.createdAt <= q.createdTo.value)
  }

  function Criterion(q: GetCustomersQuery): CustomerRecord -> bool
  {
    c => Matches(q, c)
  }

  /** The query state `Handle` hands to the repository. */
  function StateOf(q: GetCustomersQuery): (s: QueryState<CustomerRecord, CustomerKey>)
    ensures s.skip == q.pageNumber && s.take == q.pageSize && s.includes == []
    ensures s.criteria.None? <==> !HasAnyFilter(q)
    ensures s.sort == SortSpec(q.sortBy, q.descending, KeyTable, DefaultSort)
  {
    QueryState(q.pageNumber, q.pageSize, if HasAnyFilter(q) then Some(Criterion(q)) else None,
               SortSpec(q.sortBy, q.descending, KeyTable, DefaultSort), [])
  }

  /** Without any filter every customer matches, so leaving the criteria out loses nothing. */
  lemma NoFilterMatchesEveryone(q: GetCustomersQuery, c: CustomerRecord)
    requires !HasAnyFilter(q)
    ensures Matches(q, c)
  {
  }

  /** The customers the query considers are exactly those of the source that match every given filter. */
  lemma FilteredCustomers(q: GetCustomersQuery, source: seq<CustomerRecord>, c: CustomerRecord)
    ensures c in Filter(source, StateOf(q)) <==> c in source && Matches(q, c)
  {
    if !HasAnyFilter(q) {
      NoFilterMatchesEveryone(q, c);
    }
  }

  /** `GetCustomersQueryHandler.Handle` over the customers `source`, with the database ordering the rows. */
  method Handle(q: GetCustomersQuery, source: seq<CustomerRecord>,
                database: Query<CustomerRecord, CustomerKey> -> seq<CustomerRecord>)
    returns (response: PagedResponse<CustomerDto>)
    requires q.includeTotalCount ==> |database(QueryOf(source, StateOf(q)))| <= MaxValue
    ensures response == ResponseFor(source, StateOf(q), q.includeTotalCount, database, DomainToDto)
  {
    var criteria: Option<CustomerRecord -> bool> := None;
    var hasAnyFilter := HasAnyFilter(q);
    if hasAnyFilter {
      criteria := Some(Criterion(q));
    }
    var sortExpressions := ToSortExpressions(q.sortBy, q.descending);
    response := Respond(q.pageNumber, q.pageSize, q.includeTotalCount, criteria, sortExpressions, [],
                        source, database, DomainToDto);
  }
}
