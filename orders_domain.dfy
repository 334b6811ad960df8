/**
 * `Order` and `OrderLine`, the Orders module's entities: an order keeps its
 * lines in a list that `AddLine` appends to, after checking the quantity and
 * the price, and its total is the sum of the lines' amounts.
 */
module OrdersDomain {
  import opened Wrappers
  import opened Int32
  import opened Values

  /** An `OrderLine`: the order it names, a product, a count and a unit price. */
  datatype OrderLine = OrderLine(id: Guid, orderId: Guid, productName: string, quantity: int32, unitPrice: Decimal)

  /** The fields of an order at one moment, lines included, as the read side and the mappings see them. */
  datatype OrderRecord = OrderRecord(id: Guid, customerId: Guid, createdAt: DateTime, lines: seq<OrderLine>)

  /** What `AddLine` accepts: a positive quantity and a price that is not negative. */
  predicate LineIsValid(l: OrderLine)
  {
    l.quantity > 0 && l.unitPrice >= 0.0
  }

  /** The amount of one line, `Quantity * UnitPrice` in exact decimal arithmetic. */
  function Amount(l: OrderLine): Decimal
  {
    l.quantity as real * l.unitPrice
  }

  /** `Sum(l => l.Quantity * l.UnitPrice)`; never negative over lines `AddLine` accepted. */
  function LinesTotal(lines: seq<OrderLine>): (t: Decimal)
    ensures (forall i :: 0 <= i < |lines| ==> LineIsValid(lines[i])) ==> t >= 0.0
    decreases |lines|
  {
    if lines == [] then 0.0
    else
      var init := lines[..|lines| - 1];
      assert forall i :: 0 <= i < |init| ==> init[i] == lines[i];
      LinesTotal(init) + Amount(lines[|lines| - 1])
  }

  /** The total of a concatenation is the sum of the totals. */
  lemma {:induction false} LinesTotalAppend(a: seq<OrderLine>, b: seq<OrderLine>)
    ensures LinesTotal(a + b) == LinesTotal(a) + LinesTotal(b)
    decreases |b|
  {
    if b == [] {
      assert a + b == a;
    } else {
      var init := b[..|b| - 1];
      assert (a + b)[..|a + b| - 1] == a + init;
      assert (a + b)[|a + b| - 1] == b[|b| - 1];
      LinesTotalAppend(a, init);
    }
  }

  /** One more line adds its amount to the total. */
  lemma LinesTotalSnoc(lines: seq<OrderLine>, l: OrderLine)
    ensures LinesTotal(lines + [l]) == LinesTotal(lines) + Amount(l)
  {
    assert (lines + [l])[..|lines|] == lines;
  }

  /** Why `AddLine` refused a line: `ArgumentOutOfRangeException` for the quantity or for the price. */
  datatype AddLineError = QuantityNotPositive | NegativeUnitPrice

  class Order {
    var id: Guid
    var customerId: Guid
    var createdAt: DateTime
    var lines: seq<OrderLine>

    /** Every line was accepted by `AddLine`. */
    predicate Valid()
      reads this
    {
      forall i :: 0 <= i < |lines| ==> LineIsValid(lines[i])
    }

    function Total(): (t: Decimal)
      reads this
      ensures Valid() ==> t >= 0.0
    {
      LinesTotal(lines)
    }

    function Record(): OrderRecord
      reads this
    {
      OrderRecord(id, customerId, createdAt, lines)
    }

    /** `new Order(id, customerId)`, created at the instant `createdAt` (the source reads the clock), with no lines. */
    constructor (id: Guid, customerId: Guid, createdAt: DateTime)
      ensures Record() == OrderRecord(id, customerId, createdAt, [])
      ensures Valid() && Total() == 0.0
    {
      this.id := id;
      this.customerId := customerId;
      this.createdAt := createdAt;
      this.lines := [];
    }

    /**
     * `AddLine(orderId, productName, quantity, unitPrice)`, with `lineId` for
     * the `Guid.NewGuid()` of the new line. The quantity is checked first,
     * then the price; a refused line leaves the order as it was. The order
     * id given is not compared with the order's own.
     */
    method AddLine(orderId: Guid, productName: string, quantity: int32, unitPrice: Decimal, lineId: Guid)
      returns (error: Option<AddLineError>)
      modifies this
      ensures id == old(id) && customerId == old(customerId) && createdAt == old(createdAt)
      ensures quantity <= 0 ==> error == Some(QuantityNotPositive) && lines == old(lines)
      ensures quantity > 0 && unitPrice < 0.0 ==> error == Some(NegativeUnitPrice) && lines == old(lines)
      ensures quantity > 0 && unitPrice >= 0.0 ==>
        error.None? && lines == old(lines) + [OrderLine(lineId, orderId, productName, quantity, unitPrice)]
      ensures error.None? ==> Total() == old(Total()) + quantity as real * unitPrice
      ensures old(Valid()) ==> Valid()
    {
      if quantity <= 0 {
        return Some(QuantityNotPositive);
      }
      if unitPrice < 0.0 {
        return Some(NegativeUnitPrice);
      }
      var line := OrderLine(lineId, orderId, productName, quantity, unitPrice);
      ghost var before := lines;
      ghost var total := Total();
      LinesTotalSnoc(lines, line);
      lines := lines + [line];
      assert forall i :: 0 <= i < |before| ==> lines[i] == before[i];
      assert Total() == total + Amount(line);
      assert LineIsValid(line);
      error := None;
    }
  }
}
