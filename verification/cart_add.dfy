/** Cart.add (cart/models.py): find or create the line of a variant, compute
    the new quantity (replace or accumulate), reject a negative result, run
    the stock check, then delete the line at zero or save the quantity.
    Every row write goes through the signal handlers of CartSignals. */
module CartAdd {
  import opened Common
  import opened Stock
  import opened Catalog
  import opened CartModel
  import opened CartSignals

  /** What the cart's lines refer to: each variant's stock records and the
      price its lines are charged at. */
  datatype Shop = Shop(stockOf: VariantId -> seq<StockRecord>, price: PriceList)

  datatype AddError =
    | NegativeQuantity(requested: int, result: int)   // ValueError
    | InsufficientStock(variant: VariantId)            // from check_quantity
    | MultipleLines(variant: VariantId)                // get_or_create found several lines

  /** The state Cart.add leaves: the cart (None once the post-delete signal
      removed it) and the error raised, if any. Rows written before an
      error stay written. */
  datatype AddResult = AddResult(cart: Option<Cart>, error: Option<AddError>)

  /** get_or_create(variant=v, defaults={'quantity': 0}): the cart (with the
      new line saved if one was created) and the position of v's line. */
  function GetOrCreate(c: Cart, v: VariantId, price: PriceList): (r: Result<(Cart, nat), AddError>)
    ensures r.Failure? <==> |Matches(c.lines, v)| > 1
    ensures r.Failure? ==> r.error == MultipleLines(v)
    ensures r.Success? ==> r.value.1 < |r.value.0.lines| && r.value.0.lines[r.value.1].variant == v
    ensures r.Success? && |Matches(c.lines, v)| == 1 ==> r.value == (c, Matches(c.lines, v)[0])
    ensures r.Success? && |Matches(c.lines, v)| == 0 ==>
      && r.value.0.lines == c.lines + [Line(v, 0, None)]
      && r.value.1 == |c.lines|
      && SubtotalConsistent(r.value.0)
      && r.value.0.status == c.status
  {
    var m := Matches(c.lines, v);
    if |m| > 1 then Failure(MultipleLines(v))
    else if |m| == 1 then Success((c, m[0]))
    else
      var created := InsertLine(c, v, 0, price);
      assert created.lines == c.lines + [created.lines[|c.lines|]];
      Success((created, |c.lines|))
  }

  /** The quantity Cart.add aims for: the requested quantity when replacing,
      otherwise the current quantity (0 for a new line) plus the request. */
  function TargetQuantity(c: Cart, v: VariantId, quantity: int, replace: bool): int {
    if replace then quantity else QuantityOf(Some(c), v) + quantity
  }

  /** The body of Cart.add, with the column set of the final save as a
      parameter: AllFields for Add, QuantityOnly for AddAsWritten. */
  function AddWith(c: Cart, shop: Shop, v: VariantId, quantity: int, replace: bool,
                   checkQuantity: bool, mode: SaveMode): (r: AddResult)
    ensures r.error.Some? ==> r.cart.Some?
    ensures r.error == Some(MultipleLines(v)) <==> |Matches(c.lines, v)| > 1
    ensures |Matches(c.lines, v)| > 1 ==> r.cart == Some(c)
    ensures r.cart.Some? ==> r.cart.value.status == c.status && r.cart.value.lastStatusChange == c.lastStatusChange
  {
    match GetOrCreate(c, v, shop.price)
    case Failure(e) => AddResult(Some(c), Some(e))
    case Success((c1, i)) =>
      var newQuantity := if replace then quantity else c1.lines[i].quantity + quantity;
      var r := Settle(c1, i, shop, quantity, newQuantity, checkQuantity, mode);
      assert |Matches(c.lines, v)| <= 1;
      assert r.error.Some? ==> !r.error.value.MultipleLines?;
      r
  }

  /** Cart.add once v's line sits at position i of c1: the negative-quantity
      and stock checks, then the delete at zero or the save. */
  function Settle(c1: Cart, i: nat, shop: Shop, quantity: int, newQuantity: int,
                  checkQuantity: bool, mode: SaveMode): (r: AddResult)
    requires i < |c1.lines|
    ensures r.error.Some? ==> r.cart == Some(c1) && !r.error.value.MultipleLines?
    ensures r.error.None? && r.cart.Some? ==> SubtotalConsistent(r.cart.value)
    ensures r.cart.Some? ==> r.cart.value.status == c1.status && r.cart.value.lastStatusChange == c1.lastStatusChange
  {
    var v := c1.lines[i].variant;
    if newQuantity < 0 then AddResult(Some(c1), Some(NegativeQuantity(quantity, newQuantity)))
    else if checkQuantity && !CheckQuantity(shop.stockOf(v), newQuantity) then
      AddResult(Some(c1), Some(InsufficientStock(v)))
    else if newQuantity == 0 then AddResult(DeleteLine(c1, i), None)
    else AddResult(Some(SaveQuantity(c1, i, newQuantity, shop.price, mode)), None)
  }

  /** The outcome of Settle on a cart with one line per variant. */
  lemma SettleSpec(c1: Cart, i: nat, shop: Shop, quantity: int, target: int, checkQuantity: bool, mode: SaveMode)
    requires UniqueVariants(c1.lines) && i < |c1.lines|
    ensures var r := Settle(c1, i, shop, quantity, target, checkQuantity, mode);
      var v := c1.lines[i].variant;
      && (r.error == Some(NegativeQuantity(quantity, target)) <==> target < 0)
      && (r.error == Some(InsufficientStock(v)) <==>
            0 <= target && checkQuantity && target > StockQuantity(shop.stockOf(v)))
      && (r.error.None? <==> 0 <= target && !(checkQuantity && target > StockQuantity(shop.stockOf(v))))
      && (r.error.None? && target > 0 ==>
            r.cart.Some? && Quantities(r.cart.value.lines) == Quantities(c1.lines)[v := target])
      && (r.error.None? && target == 0 ==>
            (r.cart.None? <==> |c1.lines| == 1)
            && (r.cart.Some? ==> Quantities(r.cart.value.lines) == Quantities(c1.lines) - {v}))
      && (r.cart.Some? ==> UniqueVariants(r.cart.value.lines))
  {
    var v := c1.lines[i].variant;
    if 0 < target && !(checkQuantity && target > StockQuantity(shop.stockOf(v))) {
      var saved := SaveQuantity(c1, i, target, shop.price, mode);
      assert saved.lines == c1.lines[i := saved.lines[i]];
      QuantitiesAfterUpdate(c1.lines, i, saved.lines[i]);
    } else if target == 0 && !(checkQuantity && target > StockQuantity(shop.stockOf(v))) {
      QuantitiesAfterRemove(c1.lines, i);
    }
  }

  /** A call of Cart.add that raises nothing leaves a correct subtotal. */
  lemma AddLeavesSubtotal(c: Cart, shop: Shop, v: VariantId, quantity: int, replace: bool, checkQuantity: bool, mode: SaveMode)
    ensures var r := AddWith(c, shop, v, quantity, replace, checkQuantity, mode);
      r.error.None? && r.cart.Some? ==> SubtotalConsistent(r.cart.value)
  {
  }

  /** Cart.add, with the line's total written on every save. */
  function Add(c: Cart, shop: Shop, v: VariantId, quantity: int, replace: bool, checkQuantity: bool): AddResult {
    AddWith(c, shop, v, quantity, replace, checkQuantity, AllFields)
  }

  /** Cart.add as written: the final save names only the quantity column,
      so the total pre_save computes never reaches the stored row. */
  function AddAsWritten(c: Cart, shop: Shop, v: VariantId, quantity: int, replace: bool, checkQuantity: bool): AddResult {
    AddWith(c, shop, v, quantity, replace, checkQuantity, QuantityOnly)
  }

  /** On a cart with one line per variant, get_or_create finds or appends v's
      line, whose quantity is v's current quantity (0 when new). */
  lemma GetOrCreateOfUnique(c: Cart, v: VariantId, price: PriceList)
    requires UniqueVariants(c.lines)
    ensures GetOrCreate(c, v, price).Success?
    ensures var (c1, i) := GetOrCreate(c, v, price).value;
      && UniqueVariants(c1.lines)
      && c1.lines[i].quantity == QuantityOf(Some(c), v)
      && Quantities(c1.lines) == Quantities(c.lines)[v := QuantityOf(Some(c), v)]
      && (|c1.lines| == 1 <==> Quantities(c.lines).Keys <= {v})
      && (SubtotalConsistent(c) ==> SubtotalConsistent(c1))
      && c1.lines[..|c.lines|] == c.lines
  {
    if j :| 0 <= j < |c.lines| && c.lines[j].variant == v {
      GetOrCreateFound(c, v, price, j);
    } else {
      GetOrCreateAppended(c, v, price);
    }
  }

  /** get_or_create on a cart whose line j is v's only line. */
  lemma GetOrCreateFound(c: Cart, v: VariantId, price: PriceList, j: nat)
    requires UniqueVariants(c.lines) && j < |c.lines| && c.lines[j].variant == v
    ensures GetOrCreate(c, v, price) == Success((c, j))
    ensures c.lines[j].quantity == QuantityOf(Some(c), v)
    ensures Quantities(c.lines) == Quantities(c.lines)[v := QuantityOf(Some(c), v)]
    ensures |c.lines| == 1 <==> Quantities(c.lines).Keys <= {v}
  {
    QuantitiesOfUnique(c.lines);
    MatchesOfUnique(c.lines, v, j);
    if |c.lines| > 1 {
      var other := if j == 0 then 1 else 0;
      assert c.lines[other].variant in Quantities(c.lines);
    }
  }

  /** get_or_create on a cart without a line of v appends a zero line. */
  lemma GetOrCreateAppended(c: Cart, v: VariantId, price: PriceList)
    requires UniqueVariants(c.lines) && forall j :: 0 <= j < |c.lines| ==> c.lines[j].variant != v
    ensures GetOrCreate(c, v, price).Success?
    ensures var (c1, i) := GetOrCreate(c, v, price).value;
      && c1.lines == c.lines + [Line(v, 0, None)] && i == |c.lines|
      && UniqueVariants(c1.lines)
      && QuantityOf(Some(c), v) == 0
      && Quantities(c1.lines) == Quantities(c.lines)[v := 0]
      && (|c1.lines| == 1 <==> Quantities(c.lines).Keys <= {v})
      && (SubtotalConsistent(c) ==> SubtotalConsistent(c1))
  {
    QuantitiesKeys(c.lines);
    MatchesOfAbsent(c.lines, v);
    QuantitiesAfterAppend(c.lines, Line(v, 0, None));
    if |c.lines| > 0 {
      assert c.lines[0].variant in Quantities(c.lines);
    }
  }

  /** On a cart with one line per variant, Cart.add settles v's line, the
      one get_or_create found or appended, with the target quantity. */
  lemma AddLookup(c: Cart, shop: Shop, v: VariantId, quantity: int, replace: bool, checkQuantity: bool, mode: SaveMode)
    requires UniqueVariants(c.lines)
    ensures GetOrCreate(c, v, shop.price).Success?
    ensures var (c1, i) := GetOrCreate(c, v, shop.price).value;
      AddWith(c, shop, v, quantity, replace, checkQuantity, mode)
        == Settle(c1, i, shop, quantity, TargetQuantity(c, v, quantity, replace), checkQuantity, mode)
  {
    GetOrCreateOfUnique(c, v, shop.price);
  }

  /** The errors of Cart.add on a cart with one line per variant: a
      negative target raises ValueError, a target above the variant's stock
      quantity raises InsufficientStock when the check is on, and otherwise
      nothing is raised. */
  lemma AddErrors(c: Cart, shop: Shop, v: VariantId, quantity: int, replace: bool, checkQuantity: bool, mode: SaveMode)
    requires UniqueVariants(c.lines)
    ensures var r := AddWith(c, shop, v, quantity, replace, checkQuantity, mode);
      var target := TargetQuantity(c, v, quantity, replace);
      && (r.error == Some(NegativeQuantity(quantity, target)) <==> target < 0)
      && (r.error == Some(InsufficientStock(v)) <==>
            0 <= target && checkQuantity && target > StockQuantity(shop.stockOf(v)))
      && (r.error.None? <==> 0 <= target && !(checkQuantity && target > StockQuantity(shop.stockOf(v))))
  {
    AddLookup(c, shop, v, quantity, replace, checkQuantity, mode);
    GetOrCreateOfUnique(c, v, shop.price);
    var (c1, i) := GetOrCreate(c, v, shop.price).value;
    SettleSpec(c1, i, shop, quantity, TargetQuantity(c, v, quantity, replace), checkQuantity, mode);
  }

  /** The lines Cart.add leaves on a cart with one line per variant, as a
      map from variant to quantity. After an error v holds its old quantity
      (a new line having been created with quantity 0); a positive target
      becomes v's quantity; a zero target removes v's line, and the cart
      with it when it had no other line. */
  lemma AddQuantities(c: Cart, shop: Shop, v: VariantId, quantity: int, replace: bool, checkQuantity: bool, mode: SaveMode)
    requires UniqueVariants(c.lines)
    ensures var r := AddWith(c, shop, v, quantity, replace, checkQuantity, mode);
      var target := TargetQuantity(c, v, quantity, replace);
      && (r.error.Some? ==> Quantities(r.cart.value.lines) == Quantities(c.lines)[v := QuantityOf(Some(c), v)])
      && (r.error.None? && target > 0 ==>
            r.cart.Some? && Quantities(r.cart.value.lines) == Quantities(c.lines)[v := target])
      && (r.error.None? && target == 0 ==>
            (r.cart.None? <==> Quantities(c.lines).Keys <= {v})
            && (r.cart.Some? ==> Quantities(r.cart.value.lines) == Quantities(c.lines) - {v}))
      && (r.cart.Some? ==> UniqueVariants(r.cart.value.lines))
  {
    AddLookup(c, shop, v, quantity, replace, checkQuantity, mode);
    GetOrCreateOfUnique(c, v, shop.price);
    var (c1, i) := GetOrCreate(c, v, shop.price).value;
    SettleQuantities(c1, i, shop, quantity, TargetQuantity(c, v, quantity, replace), checkQuantity, mode,
                     Quantities(c.lines), QuantityOf(Some(c), v));
  }

  /** What Settle does to the quantities of a cart with one line per
      variant whose map is `before` with v's entry set to `previous`. */
  lemma SettleQuantities(c1: Cart, i: nat, shop: Shop, quantity: int, target: int, checkQuantity: bool, mode: SaveMode,
                         before: map<VariantId, nat>, previous: nat)
    requires UniqueVariants(c1.lines) && i < |c1.lines|
    requires Quantities(c1.lines) == before[c1.lines[i].variant := previous]
    ensures var r := Settle(c1, i, shop, quantity, target, checkQuantity, mode);
      var v := c1.lines[i].variant;
      && (r.error.Some? ==> Quantities(r.cart.value.lines) == before[v := previous])
      && (r.error.None? && target > 0 ==>
            r.cart.Some? && Quantities(r.cart.value.lines) == before[v := target])
      && (r.error.None? && target == 0 ==>
            (r.cart.None? <==> |c1.lines| == 1)
            && (r.cart.Some? ==> Quantities(r.cart.value.lines) == before - {v}))
      && (r.cart.Some? ==> UniqueVariants(r.cart.value.lines))
  {
    var v := c1.lines[i].variant;
    SettleSpec(c1, i, shop, quantity, target, checkQuantity, mode);
    if target > 0 {
      UpdateTwice(before, v, previous, target);
    } else if target == 0 {
      RemoveAfterUpdate(before, v, previous);
    }
  }

  lemma UpdateTwice<K, V>(m: map<K, V>, k: K, a: V, b: V)
    ensures m[k := a][k := b] == m[k := b]
  {
  }

  lemma RemoveAfterUpdate<K, V>(m: map<K, V>, k: K, a: V)
    ensures m[k := a] - {k} == m - {k}
  {
  }

  /** Cart.add on a cart with one line per variant leaves v at the target
      quantity when it raises nothing, and every other variant as it was. */
  lemma AddQuantityOf(c: Cart, shop: Shop, v: VariantId, quantity: int, replace: bool, checkQuantity: bool, mode: SaveMode)
    requires UniqueVariants(c.lines)
    ensures var r := AddWith(c, shop, v, quantity, replace, checkQuantity, mode);
      && (r.error.None? ==> QuantityOf(r.cart, v) == TargetQuantity(c, v, quantity, replace))
      && (forall w :: w != v ==> QuantityOf(r.cart, w) == QuantityOf(Some(c), w))
  {
    var r := AddWith(c, shop, v, quantity, replace, checkQuantity, mode);
    AddErrors(c, shop, v, quantity, replace, checkQuantity, mode);
    AddQuantities(c, shop, v, quantity, replace, checkQuantity, mode);
    QuantityOfResult(r.cart, Quantities(c.lines), v, QuantityOf(Some(c), v),
                     r.error.None?, TargetQuantity(c, v, quantity, replace));
  }

  /** QuantityOf read off the map facts AddQuantities states. */
  lemma QuantityOfResult(cart: Option<Cart>, before: map<VariantId, nat>, v: VariantId, previous: nat,
                         settled: bool, target: int)
    requires !settled ==> cart.Some? && Quantities(cart.value.lines) == before[v := previous]
    requires settled ==> target >= 0
    requires settled && target > 0 ==> cart.Some? && Quantities(cart.value.lines) == before[v := target]
    requires settled && target == 0 ==>
      (cart.None? <==> before.Keys <= {v}) && (cart.Some? ==> Quantities(cart.value.lines) == before - {v})
    ensures settled ==> QuantityOf(cart, v) == target
    ensures forall w :: w != v ==> QuantityOf(cart, w) == (if w in before then before[w] else 0)
  {
    forall w | w != v
      ensures QuantityOf(cart, w) == (if w in before then before[w] else 0)
    {
      if cart.None? {
        assert w !in before;
      }
    }
  }

  /** Replacing with the same quantity twice is the same as replacing once,
      whichever columns the save writes. */
  lemma AddReplaceIdempotent(c: Cart, shop: Shop, v: VariantId, quantity: int, checkQuantity: bool, mode: SaveMode)
    requires UniqueVariants(c.lines)
    requires AddWith(c, shop, v, quantity, true, checkQuantity, mode).error.None?
    requires AddWith(c, shop, v, quantity, true, checkQuantity, mode).cart.Some?
    ensures var r1 := AddWith(c, shop, v, quantity, true, checkQuantity, mode);
      AddWith(r1.cart.value, shop, v, quantity, true, checkQuantity, mode) == r1
  {
    var r1 := AddWith(c, shop, v, quantity, true, checkQuantity, mode);
    AddLookup(c, shop, v, quantity, true, checkQuantity, mode);
    AddQuantities(c, shop, v, quantity, true, checkQuantity, mode);
    GetOrCreateOfUnique(c, v, shop.price);
    var (c1, i) := GetOrCreate(c, v, shop.price).value;
    assert r1 == Settle(c1, i, shop, quantity, quantity, checkQuantity, mode);
    var c2 := r1.cart.value;
    AddLookup(c2, shop, v, quantity, true, checkQuantity, mode);
    if quantity > 0 {
      MatchesOfUnique(c2.lines, v, i);
      assert GetOrCreate(c2, v, shop.price) == Success((c2, i));
      SettleAgainSaved(c1, i, shop, quantity, checkQuantity, mode);
    } else {
      QuantitiesKeys(c2.lines);
      MatchesOfAbsent(c2.lines, v);
      assert GetOrCreate(c2, v, shop.price) == Success((InsertLine(c2, v, 0, shop.price), |c2.lines|));
      SettleAgainDeleted(c1, i, shop, checkQuantity, mode);
    }
  }

  /** A positive replace settled once is settled again without change. */
  lemma SettleAgainSaved(c1: Cart, i: nat, shop: Shop, quantity: int, checkQuantity: bool, mode: SaveMode)
    requires i < |c1.lines| && quantity > 0
    requires Settle(c1, i, shop, quantity, quantity, checkQuantity, mode).error.None?
    ensures var c2 := Settle(c1, i, shop, quantity, quantity, checkQuantity, mode).cart.value;
      && i < |c2.lines|
      && Settle(c2, i, shop, quantity, quantity, checkQuantity, mode) == AddResult(Some(c2), None)
  {
    var c2 := Settle(c1, i, shop, quantity, quantity, checkQuantity, mode).cart.value;
    ResaveIsNoOp(c2, i, quantity, shop.price, mode);
  }

  /** A zero replace that deleted the line, settled again on the freshly
      created zero line, deletes it again and restores the cart. */
  lemma SettleAgainDeleted(c1: Cart, i: nat, shop: Shop, checkQuantity: bool, mode: SaveMode)
    requires i < |c1.lines|
    requires Settle(c1, i, shop, 0, 0, checkQuantity, mode).error.None?
    requires Settle(c1, i, shop, 0, 0, checkQuantity, mode).cart.Some?
    ensures var c2 := Settle(c1, i, shop, 0, 0, checkQuantity, mode).cart.value;
      var c3 := InsertLine(c2, c1.lines[i].variant, 0, shop.price);
      Settle(c3, |c2.lines|, shop, 0, 0, checkQuantity, mode) == AddResult(Some(c2), None)
  {
    var c2 := Settle(c1, i, shop, 0, 0, checkQuantity, mode).cart.value;
    InsertThenDeleteIsNoOp(c2, c1.lines[i].variant, shop.price);
  }

  /** Saving a line again with the quantity it already has changes
      nothing: a quantity-only save rewrites the stored row as it is, and a
      full save recomputes the total the line already holds. */
  lemma ResaveIsNoOp(c: Cart, i: nat, q: nat, price: PriceList, mode: SaveMode)
    requires i < |c.lines| && SubtotalConsistent(c) && q >= 1
    requires c.lines[i].quantity == q
    requires mode == AllFields ==> c.lines[i].total == Some(q * price(c.lines[i].variant))
    ensures SaveQuantity(c, i, q, price, mode) == c
  {
    assert c.lines[i := c.lines[i]] == c.lines;
  }

  /** Creating a zero line and deleting it again restores a cart that has
      other lines and a correct subtotal. */
  lemma InsertThenDeleteIsNoOp(c: Cart, v: VariantId, price: PriceList)
    requires |c.lines| > 0 && SubtotalConsistent(c)
    ensures DeleteLine(InsertLine(c, v, 0, price), |c.lines|) == Some(c)
  {
    var c3 := InsertLine(c, v, 0, price);
    assert c3.lines[..|c.lines|] + c3.lines[|c.lines| + 1..] == c.lines;
  }

  /** Accumulating twice adds both requests: adding 3 twice gives 6 more,
      whichever columns the save writes. */
  lemma AddAccumulates(c: Cart, shop: Shop, v: VariantId, quantity: int, checkQuantity: bool, mode: SaveMode)
    requires UniqueVariants(c.lines)
    requires AddWith(c, shop, v, quantity, false, checkQuantity, mode).error.None?
    requires AddWith(c, shop, v, quantity, false, checkQuantity, mode).cart.Some?
    requires AddWith(AddWith(c, shop, v, quantity, false, checkQuantity, mode).cart.value,
                     shop, v, quantity, false, checkQuantity, mode).error.None?
    ensures var r1 := AddWith(c, shop, v, quantity, false, checkQuantity, mode);
      QuantityOf(AddWith(r1.cart.value, shop, v, quantity, false, checkQuantity, mode).cart, v)
        == QuantityOf(Some(c), v) + 2 * quantity
  {
    var r1 := AddWith(c, shop, v, quantity, false, checkQuantity, mode);
    AddQuantityOf(c, shop, v, quantity, false, checkQuantity, mode);
    AddQuantities(c, shop, v, quantity, false, checkQuantity, mode);
    AddQuantityOf(r1.cart.value, shop, v, quantity, false, checkQuantity, mode);
  }

  /** The total quantity (Cart.count) moves with Cart.add: on a cart with
      one line per variant, a call that raises nothing replaces v's
      quantity by the target in the sum, and deletes the cart only when v
      was all it held and the target is 0. */
  lemma AddTotalQuantity(c: Cart, shop: Shop, v: VariantId, quantity: int, replace: bool, checkQuantity: bool, mode: SaveMode)
    requires UniqueVariants(c.lines)
    ensures var r := AddWith(c, shop, v, quantity, replace, checkQuantity, mode);
      var target := TargetQuantity(c, v, quantity, replace);
      && (r.error.None? && r.cart.Some? ==>
            QuantitySum(r.cart.value.lines) == QuantitySum(c.lines) - QuantityOf(Some(c), v) + target)
      && (r.error.None? && r.cart.None? ==> target == 0 && QuantitySum(c.lines) == QuantityOf(Some(c), v))
  {
    AddLookup(c, shop, v, quantity, replace, checkQuantity, mode);
    GetOrCreateOfUnique(c, v, shop.price);
    var (c1, i) := GetOrCreate(c, v, shop.price).value;
    if |Matches(c.lines, v)| == 0 {
      QuantitySumAppend(c.lines, Line(v, 0, None));
    }
    assert QuantitySum(c1.lines) == QuantitySum(c.lines);
    SettleTotalQuantity(c1, i, shop, quantity, TargetQuantity(c, v, quantity, replace), checkQuantity, mode);
  }

  /** What Settle does to the sum of the quantities. */
  lemma SettleTotalQuantity(c1: Cart, i: nat, shop: Shop, quantity: int, target: int, checkQuantity: bool, mode: SaveMode)
    requires i < |c1.lines|
    ensures var r := Settle(c1, i, shop, quantity, target, checkQuantity, mode);
      && (r.error.None? && r.cart.Some? ==>
            QuantitySum(r.cart.value.lines) == QuantitySum(c1.lines) - c1.lines[i].quantity + target)
      && (r.error.None? && r.cart.None? ==> target == 0 && QuantitySum(c1.lines) == c1.lines[i].quantity)
  {
    var r := Settle(c1, i, shop, quantity, target, checkQuantity, mode);
    if r.error.None? && target > 0 {
      var saved := SaveQuantity(c1, i, target, shop.price, mode);
      assert saved.lines == c1.lines[i := saved.lines[i]];
      QuantitySumUpdate(c1.lines, i, saved.lines[i]);
    } else if r.error.None? && target == 0 {
      QuantitySumRemove(c1.lines, i);
      if |c1.lines| == 1 {
        assert c1.lines[..i] + c1.lines[i + 1..] == [];
      }
    }
  }

  /** The corrected Cart.add keeps the cart's stored sums honest: the
      subtotal is the sum of the line totals and every positive line's
      total is its quantity times its price. A new cart, which stores a
      subtotal of 0 against the NULL sum of no lines, is included. */
  lemma AddKeepsTotals(c: Cart, shop: Shop, v: VariantId, quantity: int, replace: bool, checkQuantity: bool)
    requires (SubtotalConsistent(c) || |c.lines| == 0) && LineTotalsConsistent(c.lines, shop.price)
    ensures var r := Add(c, shop, v, quantity, replace, checkQuantity);
      r.cart.Some? ==> SubtotalConsistent(r.cart.value) && LineTotalsConsistent(r.cart.value.lines, shop.price)
  {
    AddKeepsSubtotal(c, shop, v, quantity, replace, checkQuantity);
    AddKeepsLineTotals(c, shop, v, quantity, replace, checkQuantity);
  }

  lemma AddKeepsSubtotal(c: Cart, shop: Shop, v: VariantId, quantity: int, replace: bool, checkQuantity: bool)
    requires (SubtotalConsistent(c) || |c.lines| == 0) && LineTotalsConsistent(c.lines, shop.price)
    ensures var r := Add(c, shop, v, quantity, replace, checkQuantity);
      r.cart.Some? ==> SubtotalConsistent(r.cart.value)
  {
    AddUnfolds(c, shop, v, quantity, replace, checkQuantity, AllFields);
    GetOrCreateKeepsTotals(c, v, shop.price);
    var g := GetOrCreate(c, v, shop.price);
    if g.Success? {
      var c1 := g.value.0;
      var i := g.value.1;
      SettleKeepsTotals(c1, i, shop, quantity, if replace then quantity else c1.lines[i].quantity + quantity, checkQuantity);
    }
  }

  lemma AddKeepsLineTotals(c: Cart, shop: Shop, v: VariantId, quantity: int, replace: bool, checkQuantity: bool)
    requires (SubtotalConsistent(c) || |c.lines| == 0) && LineTotalsConsistent(c.lines, shop.price)
    ensures var r := Add(c, shop, v, quantity, replace, checkQuantity);
      r.cart.Some? ==> LineTotalsConsistent(r.cart.value.lines, shop.price)
  {
    AddUnfolds(c, shop, v, quantity, replace, checkQuantity, AllFields);
    GetOrCreateKeepsTotals(c, v, shop.price);
    var g := GetOrCreate(c, v, shop.price);
    if g.Success? {
      var c1 := g.value.0;
      var i := g.value.1;
      SettleKeepsTotals(c1, i, shop, quantity, if replace then quantity else c1.lines[i].quantity + quantity, checkQuantity);
    }
  }

  /** Cart.add settles, with the target quantity, the line get_or_create
      returned. */
  lemma AddSettles(c: Cart, shop: Shop, v: VariantId, quantity: int, replace: bool, checkQuantity: bool, mode: SaveMode,
                   c1: Cart, i: nat, target: int)
    requires GetOrCreate(c, v, shop.price) == Success((c1, i))
    requires target == if replace then quantity else c1.lines[i].quantity + quantity
    ensures AddWith(c, shop, v, quantity, replace, checkQuantity, mode) == Settle(c1, i, shop, quantity, target, checkQuantity, mode)
  {
  }

  /** Cart.add is get_or_create followed by Settle on the line found. */
  lemma AddUnfolds(c: Cart, shop: Shop, v: VariantId, quantity: int, replace: bool, checkQuantity: bool, mode: SaveMode)
    ensures GetOrCreate(c, v, shop.price).Failure? ==>
      AddWith(c, shop, v, quantity, replace, checkQuantity, mode) == AddResult(Some(c), Some(MultipleLines(v)))
    ensures var g := GetOrCreate(c, v, shop.price);
      g.Success? ==>
        AddWith(c, shop, v, quantity, replace, checkQuantity, mode)
          == Settle(g.value.0, g.value.1, shop, quantity,
                    if replace then quantity else g.value.0.lines[g.value.1].quantity + quantity, checkQuantity, mode)
  {
  }

  lemma GetOrCreateKeepsTotals(c: Cart, v: VariantId, price: PriceList)
    requires (SubtotalConsistent(c) || |c.lines| == 0) && LineTotalsConsistent(c.lines, price)
    ensures GetOrCreate(c, v, price).Success? ==>
      SubtotalConsistent(GetOrCreate(c, v, price).value.0) && LineTotalsConsistent(GetOrCreate(c, v, price).value.0.lines, price)
  {
    if |Matches(c.lines, v)| == 0 {
      LineTotalsAfterAppend(c.lines, price, Line(v, 0, None));
    }
  }

  lemma SettleKeepsTotals(c1: Cart, i: nat, shop: Shop, quantity: int, newQuantity: int, checkQuantity: bool)
    requires i < |c1.lines|
    requires SubtotalConsistent(c1) && LineTotalsConsistent(c1.lines, shop.price)
    ensures var r := Settle(c1, i, shop, quantity, newQuantity, checkQuantity, AllFields);
      r.cart.Some? ==> SubtotalConsistent(r.cart.value) && LineTotalsConsistent(r.cart.value.lines, shop.price)
  {
    LineTotalsAfterRemove(c1.lines, shop.price, i);
  }

  // ---- adding to an empty cart: the finding ------------------------------

  /** Adding q of a variant with enough stock to an empty cart: get_or_create
      creates a zero line, which is then saved with quantity q. The stored
      total, and with it the subtotal, depends on the columns the save
      writes. */
  lemma AddToEmptyCart(c: Cart, shop: Shop, v: VariantId, q: int, mode: SaveMode)
    requires |c.lines| == 0 && 0 < q <= StockQuantity(shop.stockOf(v))
    ensures var r := AddWith(c, shop, v, q, false, true, mode);
      && r.error.None? && r.cart.Some?
      && r.cart.value.lines == [Line(v, q, if mode == AllFields then Some(q * shop.price(v)) else None)]
      && r.cart.value.subtotal == r.cart.value.lines[0].total
      && r.cart.value.status == c.status
  {
    GetOrCreateOnEmpty(c, v, shop.price);
    var c1 := InsertLine(c, v, 0, shop.price);
    assert c1.lines == [Line(v, 0, None)];
    AddSettles(c, shop, v, q, false, true, mode, c1, 0, q);
    SettleSaves(c1, 0, shop, q, true, mode);
    SaveSingleLine(c1, q, shop.price, mode);
  }

  /** get_or_create on an empty cart creates a zero line. */
  lemma GetOrCreateOnEmpty(c: Cart, v: VariantId, price: PriceList)
    requires |c.lines| == 0
    ensures GetOrCreate(c, v, price) == Success((InsertLine(c, v, 0, price), 0))
  {
    MatchesOfAbsent(c.lines, v);
    assert |Matches(c.lines, v)| == 0;
  }

  /** Settle with a positive quantity that passes the stock check saves it. */
  lemma SettleSaves(c1: Cart, i: nat, shop: Shop, q: int, checkQuantity: bool, mode: SaveMode)
    requires i < |c1.lines| && 0 < q
    requires checkQuantity ==> q <= StockQuantity(shop.stockOf(c1.lines[i].variant))
    ensures Settle(c1, i, shop, q, q, checkQuantity, mode) == AddResult(Some(SaveQuantity(c1, i, q, shop.price, mode)), None)
  {
  }

  /** Saving quantity q into the only line of a cart. */
  lemma SaveSingleLine(c1: Cart, q: nat, price: PriceList, mode: SaveMode)
    requires |c1.lines| == 1 && c1.lines[0].total == None && q > 0
    ensures var saved := SaveQuantity(c1, 0, q, price, mode);
      var v := c1.lines[0].variant;
      && saved.lines == [Line(v, q, if mode == AllFields then Some(q * price(v)) else None)]
      && saved.subtotal == saved.lines[0].total
      && saved.status == c1.status
  {
    var saved := SaveQuantity(c1, 0, q, price, mode);
    assert saved.lines == [saved.lines[0]];
    assert saved.lines[..0] == [];
  }

  /** As written, adding q of a variant priced p to an empty cart stores the
      line without a total, so the cart's subtotal becomes NULL and the line
      breaks "total = quantity x price". */
  lemma AddAsWrittenLeavesTotalUnset(c: Cart, shop: Shop, v: VariantId, q: int)
    requires |c.lines| == 0 && 0 < q <= StockQuantity(shop.stockOf(v))
    ensures var r := AddAsWritten(c, shop, v, q, false, true);
      && r.error.None? && r.cart.Some?
      && r.cart.value.lines == [Line(v, q, None)]
      && r.cart.value.subtotal == None
      && !LineTotalsConsistent(r.cart.value.lines, shop.price)
  {
    AddToEmptyCart(c, shop, v, q, QuantityOnly);
    var lines := [Line(v, q, None)];
    assert lines[0].quantity >= 1 && lines[0].total != Some(lines[0].quantity * shop.price(lines[0].variant));
  }

  /** The corrected Cart.add on the same input stores q x p as line total
      and as subtotal. */
  lemma AddWritesTotal(c: Cart, shop: Shop, v: VariantId, q: int)
    requires |c.lines| == 0 && 0 < q <= StockQuantity(shop.stockOf(v))
    ensures var r := Add(c, shop, v, q, false, true);
      && r.error.None? && r.cart.Some?
      && r.cart.value.lines == [Line(v, q, Some(q * shop.price(v)))]
      && r.cart.value.subtotal == Some(q * shop.price(v))
      && LineTotalsConsistent(r.cart.value.lines, shop.price)
  {
    AddToEmptyCart(c, shop, v, q, AllFields);
  }
}
