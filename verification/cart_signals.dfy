/** cart/signals.py: what happens around every write of a cart line. Before
    a save the line total is set from the quantity and the product price;
    after a save the cart subtotal is recomputed; after a delete the
    subtotal is recomputed and a cart left without lines is deleted. */
module CartSignals {
  import opened Common
  import opened Catalog
  import opened CartModel

  /** The price each variant's lines are charged at (the product price). */
  type PriceList = VariantId -> Cents

  /** Which columns a save writes: every field, or only the quantity
      (save(update_fields=['quantity'])). */
  datatype SaveMode = AllFields | QuantityOnly

  /** cart_item_pre_save_receiver: a line with a positive quantity gets
      quantity times unit price as its total; any other line keeps its total. */
  function PreSave(l: Line, unitPrice: Cents): (r: Line)
    ensures r.variant == l.variant && r.quantity == l.quantity
    ensures l.quantity >= 1 ==> r.total == Some(l.quantity * unitPrice)
    ensures l.quantity < 1 ==> r.total == l.total
  {
    if l.quantity >= 1 then l.(total := Some(l.quantity * unitPrice)) else l
  }

  /** The row written by a save of line l whose stored row is `stored`:
      pre_save runs on the instance, and the columns the save names reach
      the database. */
  function WrittenRow(stored: Line, l: Line, unitPrice: Cents, mode: SaveMode): (r: Line)
    requires l.variant == stored.variant
    ensures r.variant == l.variant && r.quantity == l.quantity
    ensures mode == AllFields ==> r == PreSave(l, unitPrice)
    ensures mode == QuantityOnly ==> r.total == stored.total
  {
    match mode
    case AllFields => PreSave(l, unitPrice)
    case QuantityOnly => stored.(quantity := l.quantity)
  }

  /** Saving the existing line at position i with quantity q, followed by
      cart_item_post_save_receiver (update_subtotal). */
  function SaveQuantity(c: Cart, i: nat, q: nat, price: PriceList, mode: SaveMode): (r: Cart)
    requires i < |c.lines|
    ensures |r.lines| == |c.lines|
    ensures forall j :: 0 <= j < |c.lines| && j != i ==> r.lines[j] == c.lines[j]
    ensures r.lines[i].variant == c.lines[i].variant && r.lines[i].quantity == q
    ensures mode == AllFields && q >= 1 ==> r.lines[i].total == Some(q * price(c.lines[i].variant))
    ensures mode == QuantityOnly || q < 1 ==> r.lines[i].total == c.lines[i].total
    ensures SubtotalConsistent(r)
    ensures r.status == c.status && r.lastStatusChange == c.lastStatusChange
  {
    var row := WrittenRow(c.lines[i], c.lines[i].(quantity := q), price(c.lines[i].variant), mode);
    UpdateSubtotal(c.(lines := c.lines[i := row]))
  }

  /** A quantity-only save leaves a consistent subtotal where it was: the
      stored totals do not change, so neither does their sum. */
  lemma QuantityOnlyKeepsSubtotal(c: Cart, i: nat, q: nat, price: PriceList)
    requires i < |c.lines| && SubtotalConsistent(c)
    ensures SaveQuantity(c, i, q, price, QuantityOnly).subtotal == c.subtotal
  {
    var r := SaveQuantity(c, i, q, price, QuantityOnly);
    SumTotalsOfSameTotals(c.lines, r.lines);
  }

  /** SUM(total_price) only reads the totals. */
  lemma {:induction false} SumTotalsOfSameTotals(a: seq<Line>, b: seq<Line>)
    requires |a| == |b| && forall i :: 0 <= i < |a| ==> a[i].total == b[i].total
    ensures SumTotals(a) == SumTotals(b)
  {
    if |a| > 0 {
      SumTotalsOfSameTotals(a[..|a| - 1], b[..|b| - 1]);
    }
  }

  /** Creating a line for variant v with quantity q (a full insert, so
      pre_save's total is written), followed by update_subtotal. */
  function InsertLine(c: Cart, v: VariantId, q: nat, price: PriceList): (r: Cart)
    ensures |r.lines| == |c.lines| + 1 && r.lines[..|c.lines|] == c.lines
    ensures r.lines[|c.lines|].variant == v && r.lines[|c.lines|].quantity == q
    ensures r.lines[|c.lines|].total == (if q >= 1 then Some(q * price(v)) else None)
    ensures SubtotalConsistent(r)
    ensures r.status == c.status && r.lastStatusChange == c.lastStatusChange
  {
    UpdateSubtotal(c.(lines := c.lines + [PreSave(Line(v, q, None), price(v))]))
  }

  /** What cart_item_post_delete_receiver leaves behind. */
  datatype Cleanup =
    | NoCart            // the line had no cart: the error is swallowed and nothing happens
    | CartDeleted       // the cart had no lines left and was deleted
    | CartKept(cart: Cart)

  /** cart_item_post_delete_receiver, given the owning cart as it stands
      after the line's row is gone (None when the line had no cart). */
  function PostDelete(owner: Option<Cart>): (r: Cleanup)
    ensures r == NoCart <==> owner.None?
    ensures r == CartDeleted <==> owner.Some? && |owner.value.lines| == 0
    ensures r.CartKept? ==> r.cart.lines == owner.value.lines && SubtotalConsistent(r.cart)
    ensures r.CartKept? ==> r.cart.status == owner.value.status
  {
    match owner
    case None => NoCart
    case Some(c) =>
      var updated := UpdateSubtotal(c);
      if |updated.lines| == 0 then CartDeleted else CartKept(updated)
  }

  /** Deleting the line at position i of a cart, with the post-delete
      cleanup; None when the cart went with its last line. */
  function DeleteLine(c: Cart, i: nat): (r: Option<Cart>)
    requires i < |c.lines|
    ensures r.None? <==> |c.lines| == 1
    ensures r.Some? ==> r.value.lines == c.lines[..i] + c.lines[i + 1..] && SubtotalConsistent(r.value)
    ensures r.Some? ==> r.value.status == c.status && r.value.lastStatusChange == c.lastStatusChange
  {
    match PostDelete(Some(c.(lines := c.lines[..i] + c.lines[i + 1..])))
    case CartKept(k) => Some(k)
    case _ => None
  }

  // ---- sequences of line writes ------------------------------------------

  /** One write to a line of the cart: a save of a new quantity, an insert,
      or a delete. A position past the last line leaves the cart as it is. */
  datatype LineOp =
    | SetQuantity(i: nat, q: nat, mode: SaveMode)
    | Insert(v: VariantId, q: nat)
    | Remove(i: nat)

  function ApplyOp(c: Cart, op: LineOp, price: PriceList): (r: Option<Cart>)
    ensures r.Some? && (SubtotalConsistent(c) || op.Insert? || (op.SetQuantity? && op.i < |c.lines|)
                        || (op.Remove? && op.i < |c.lines|)) ==>
      SubtotalConsistent(r.value)
    ensures r.None? <==> op.Remove? && op.i < |c.lines| && |c.lines| == 1
  {
    match op
    case SetQuantity(i, q, mode) =>
      if i < |c.lines| then Some(SaveQuantity(c, i, q, price, mode)) else Some(c)
    case Insert(v, q) => Some(InsertLine(c, v, q, price))
    case Remove(i) => if i < |c.lines| then DeleteLine(c, i) else Some(c)
  }

  /** The writes applied in order; None once the cart has been deleted. */
  function ApplyOps(c: Cart, ops: seq<LineOp>, price: PriceList): Option<Cart>
    decreases |ops|
  {
    if |ops| == 0 then Some(c)
    else
      match ApplyOp(c, ops[0], price)
      case None => None
      case Some(c') => ApplyOps(c', ops[1..], price)
  }

  /** After any sequence of line saves, inserts and deletes, a cart that
      still exists has as subtotal the sum of its line totals. */
  lemma {:induction false} SubtotalInvariant(c: Cart, ops: seq<LineOp>, price: PriceList)
    requires SubtotalConsistent(c)
    ensures ApplyOps(c, ops, price).Some? ==> SubtotalConsistent(ApplyOps(c, ops, price).value)
    decreases |ops|
  {
    if |ops| > 0 {
      match ApplyOp(c, ops[0], price)
      case None =>
      case Some(c') => SubtotalInvariant(c', ops[1..], price);
    }
  }

  /** A write that stores whole rows keeps every positive line's total equal
      to quantity times price. */
  lemma ApplyOpKeepsLineTotals(c: Cart, op: LineOp, price: PriceList)
    requires LineTotalsConsistent(c.lines, price)
    requires op.SetQuantity? ==> op.mode == AllFields
    ensures ApplyOp(c, op, price).Some? ==> LineTotalsConsistent(ApplyOp(c, op, price).value.lines, price)
  {
    match op
    case SetQuantity(i, q, mode) =>
    case Insert(v, q) =>
      var r := InsertLine(c, v, q, price);
      assert r.lines == c.lines + [r.lines[|c.lines|]];
      LineTotalsAfterAppend(c.lines, price, r.lines[|c.lines|]);
    case Remove(i) =>
      if i < |c.lines| {
        LineTotalsAfterRemove(c.lines, price, i);
      }
  }

  /** Line totals stay quantity times price across any sequence of writes
      that store whole rows. */
  lemma {:induction false} LineTotalsInvariant(c: Cart, ops: seq<LineOp>, price: PriceList)
    requires LineTotalsConsistent(c.lines, price)
    requires forall k :: 0 <= k < |ops| && ops[k].SetQuantity? ==> ops[k].mode == AllFields
    ensures ApplyOps(c, ops, price).Some? ==> LineTotalsConsistent(ApplyOps(c, ops, price).value.lines, price)
    decreases |ops|
  {
    if |ops| > 0 {
      ApplyOpKeepsLineTotals(c, ops[0], price);
      match ApplyOp(c, ops[0], price)
      case None =>
      case Some(c') =>
        assert forall k :: 0 <= k < |ops| - 1 ==> ops[1..][k] == ops[k + 1];
        LineTotalsInvariant(c', ops[1..], price);
    }
  }
}
