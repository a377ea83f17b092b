/** Stock records of a product variant and the stock arithmetic of
    ProductVariant: available quantity, stock quantity, the quantity check,
    the in-stock test and the choice of the cheapest adequate record. */
module Stock {
  import opened Common

  /** One stock record of a variant at one location. The source validates
      both quantities as non-negative only in forms, so they stay integers. */
  datatype StockRecord = StockRecord(quantity: int, quantityAllocated: int, costPrice: Option<Cents>)

  /** Stock.quantity_available: what is left after allocations, never negative. */
  function QuantityAvailable(s: StockRecord): (r: nat)
    ensures r >= s.quantity - s.quantityAllocated
    ensures r == 0 || r == s.quantity - s.quantityAllocated
  {
    if s.quantity - s.quantityAllocated > 0 then s.quantity - s.quantityAllocated else 0
  }

  /** ProductVariant.get_stock_quantity: 0 without records, otherwise the
      largest available quantity over the records. */
  function StockQuantity(records: seq<StockRecord>): (r: nat)
    ensures forall i :: 0 <= i < |records| ==> QuantityAvailable(records[i]) <= r
    ensures |records| == 0 ==> r == 0
    ensures |records| > 0 ==> exists i :: 0 <= i < |records| && QuantityAvailable(records[i]) == r
  {
    if |records| == 0 then 0
    else
      var rest := StockQuantity(records[1..]);
      var here := QuantityAvailable(records[0]);
      if here >= rest then here
      else
        assert forall j :: 0 <= j < |records| - 1 ==> records[1..][j] == records[j + 1];
        rest
  }

  /** ProductVariant.check_quantity: true when the request can be served,
      false where the source raises InsufficientStock. */
  function CheckQuantity(records: seq<StockRecord>, quantity: int): (ok: bool)
    ensures ok <==> quantity <= StockQuantity(records)
    ensures ok <==> quantity <= 0 || exists i :: 0 <= i < |records| && QuantityAvailable(records[i]) >= quantity
  {
    quantity <= StockQuantity(records)
  }

  /** ProductVariant.is_in_stock: some record has something available. */
  predicate VariantInStock(records: seq<StockRecord>) {
    exists i :: 0 <= i < |records| && QuantityAvailable(records[i]) > 0
  }

  /** A variant is in stock exactly when its stock quantity is positive. */
  lemma InStockIffStockQuantityPositive(records: seq<StockRecord>)
    ensures VariantInStock(records) <==> StockQuantity(records) > 0
  {
  }

  /** The sort key of select_stockrecord: an absent cost price counts as zero. */
  function Cost(s: StockRecord): Cents {
    match s.costPrice
    case None => 0
    case Some(c) => c
  }

  predicate Adequate(s: StockRecord, quantity: int) {
    QuantityAvailable(s) >= quantity
  }

  /** Record i is what a stable ascending sort of the adequate records by
      cost puts first: adequate, no adequate record is cheaper, and every
      adequate record before it is strictly dearer. */
  ghost predicate IsSelected(records: seq<StockRecord>, quantity: int, i: int) {
    && 0 <= i < |records|
    && Adequate(records[i], quantity)
    && (forall j :: 0 <= j < |records| && Adequate(records[j], quantity) ==> Cost(records[i]) <= Cost(records[j]))
    && (forall j :: 0 <= j < i && Adequate(records[j], quantity) ==> Cost(records[i]) < Cost(records[j]))
  }

  /** ProductVariant.select_stockrecord: the index of the chosen record, or
      None when no record can serve the quantity. */
  method SelectStockRecord(records: seq<StockRecord>, quantity: int) returns (r: Option<nat>)
    ensures r.None? <==> forall j :: 0 <= j < |records| ==> !Adequate(records[j], quantity)
    ensures r.Some? ==> IsSelected(records, quantity, r.value)
  {
    r := None;
    var k := 0;
    while k < |records|
      invariant 0 <= k <= |records|
      invariant r.None? <==> forall j :: 0 <= j < k ==> !Adequate(records[j], quantity)
      invariant r.Some? ==> IsSelected(records[..k], quantity, r.value)
    {
      if Adequate(records[k], quantity) && (r.None? || Cost(records[k]) < Cost(records[r.value])) {
        r := Some(k);
      }
      k := k + 1;
    }
    assert records[..k] == records;
  }

  /** At most one record is the selected one, so the choice is determined. */
  lemma SelectionIsUnique(records: seq<StockRecord>, quantity: int, i: int, j: int)
    requires IsSelected(records, quantity, i) && IsSelected(records, quantity, j)
    ensures i == j
  {
  }
}
