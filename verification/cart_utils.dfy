/** cart/utils.py: checking a whole cart against stock, and clamping every
    line to what is in stock. */
module CartUtils {
  import opened Common
  import opened Stock
  import opened Catalog
  import opened CartModel
  import opened CartSignals
  import opened CartAdd

  /** The line asks for more than its variant's stock quantity. */
  predicate ExceedsStock(l: Line, shop: Shop) {
    l.quantity > StockQuantity(shop.stockOf(l.variant))
  }

  predicate HasUnavailableLine(c: Cart, shop: Shop) {
    exists i :: 0 <= i < |c.lines| && ExceedsStock(c.lines[i], shop)
  }

  /** contains_unavailable_variants: the stock check of each line in turn;
      the first failing check answers true. */
  method ContainsUnavailableVariants(c: Cart, shop: Shop) returns (b: bool)
    ensures b <==> HasUnavailableLine(c, shop)
  {
    for i := 0 to |c.lines|
      invariant forall j :: 0 <= j < i ==> !ExceedsStock(c.lines[j], shop)
    {
      if !CheckQuantity(shop.stockOf(c.lines[i].variant), c.lines[i].quantity) {
        return true;
      }
    }
    return false;
  }

  /** The quantity a line is clamped to: its own, or the stock quantity of
      its variant when that is smaller. */
  function Clamp(l: Line, shop: Shop): (r: nat)
    ensures r <= l.quantity && r <= StockQuantity(shop.stockOf(l.variant))
    ensures r == l.quantity || r == StockQuantity(shop.stockOf(l.variant))
  {
    var available := StockQuantity(shop.stockOf(l.variant));
    if l.quantity <= available then l.quantity else available
  }

  /** One iteration of remove_unavailable_variants: replace the line's
      quantity with itself, and when the stock check refuses, replace it
      with the variant's stock quantity. The source's Cart.add saves with
      mode QuantityOnly; AllFields is the corrected add. */
  function CleanLine(c: Cart, l: Line, shop: Shop, mode: SaveMode): AddResult {
    var first := AddWith(c, shop, l.variant, l.quantity, true, true, mode);
    if first.error == Some(InsufficientStock(l.variant)) then
      AddWith(first.cart.value, shop, l.variant, StockQuantity(shop.stockOf(l.variant)), true, true, mode)
    else first
  }

  /** The contents expected once the first k lines have been cleaned: the
      cart's quantities with each of those lines clamped, and dropped when
      clamped to zero. */
  function Cleaned(lines: seq<Line>, k: nat, shop: Shop): map<VariantId, nat>
    requires k <= |lines|
  {
    if k == 0 then Quantities(lines)
    else
      var l := lines[k - 1];
      var m := Cleaned(lines, k - 1, shop);
      if Clamp(l, shop) == 0 then m - {l.variant} else m[l.variant := Clamp(l, shop)]
  }

  /** The cleaned lines hold their clamped quantity, or are gone when it is zero. */
  lemma {:induction false} CleanedBefore(lines: seq<Line>, k: nat, shop: Shop)
    requires UniqueVariants(lines) && k <= |lines|
    ensures forall j :: 0 <= j < k && Clamp(lines[j], shop) == 0 ==> lines[j].variant !in Cleaned(lines, k, shop)
    ensures forall j :: 0 <= j < k && Clamp(lines[j], shop) > 0 ==>
      lines[j].variant in Cleaned(lines, k, shop) && Cleaned(lines, k, shop)[lines[j].variant] == Clamp(lines[j], shop)
  {
    if k > 0 {
      CleanedBefore(lines, k - 1, shop);
      forall j | 0 <= j < k - 1 ensures lines[j].variant != lines[k - 1].variant {
      }
    }
  }

  /** The lines not cleaned yet hold their own quantity. */
  lemma {:induction false} CleanedAfter(lines: seq<Line>, k: nat, shop: Shop)
    requires UniqueVariants(lines) && k <= |lines|
    ensures forall j :: k <= j < |lines| ==>
      lines[j].variant in Cleaned(lines, k, shop) && Cleaned(lines, k, shop)[lines[j].variant] == lines[j].quantity
  {
    if k == 0 {
      QuantitiesOfUnique(lines);
    } else {
      CleanedAfter(lines, k - 1, shop);
      forall j | k <= j < |lines| ensures lines[j].variant != lines[k - 1].variant {
      }
    }
  }

  /** Cleaning adds no variant. */
  lemma {:induction false} CleanedKeys(lines: seq<Line>, k: nat, shop: Shop)
    requires k <= |lines|
    ensures forall w :: w in Cleaned(lines, k, shop) ==> exists j :: 0 <= j < |lines| && lines[j].variant == w
  {
    if k == 0 {
      QuantitiesKeys(lines);
    } else {
      CleanedKeys(lines, k - 1, shop);
    }
  }

  lemma CleanedEntries(lines: seq<Line>, k: nat, shop: Shop)
    requires UniqueVariants(lines) && k <= |lines|
    ensures forall j :: 0 <= j < k && Clamp(lines[j], shop) == 0 ==> lines[j].variant !in Cleaned(lines, k, shop)
    ensures forall j :: 0 <= j < k && Clamp(lines[j], shop) > 0 ==>
      lines[j].variant in Cleaned(lines, k, shop) && Cleaned(lines, k, shop)[lines[j].variant] == Clamp(lines[j], shop)
    ensures forall j :: k <= j < |lines| ==>
      lines[j].variant in Cleaned(lines, k, shop) && Cleaned(lines, k, shop)[lines[j].variant] == lines[j].quantity
    ensures forall w :: w in Cleaned(lines, k, shop) ==> exists j :: 0 <= j < |lines| && lines[j].variant == w
  {
    CleanedBefore(lines, k, shop);
    CleanedAfter(lines, k, shop);
    CleanedKeys(lines, k, shop);
  }

  /** Replacing the quantity of a variant the cart holds by one within
      stock raises nothing and leaves the expected contents; the cart is
      deleted exactly when the quantity is 0 and no other variant is left. */
  lemma ReplaceWithinStock(c: Cart, shop: Shop, v: VariantId, t: nat, mode: SaveMode)
    requires UniqueVariants(c.lines) && v in Quantities(c.lines)
    requires t <= StockQuantity(shop.stockOf(v))
    ensures var r := AddWith(c, shop, v, t, true, true, mode);
      && r.error.None?
      && (r.cart.None? <==> t == 0 && Quantities(c.lines).Keys <= {v})
      && (r.cart.Some? ==>
            && UniqueVariants(r.cart.value.lines)
            && Quantities(r.cart.value.lines) == (if t == 0 then Quantities(c.lines) - {v} else Quantities(c.lines)[v := t])
            && SubtotalConsistent(r.cart.value)
            && |r.cart.value.lines| > 0)
  {
    AddErrors(c, shop, v, t, true, true, mode);
    AddQuantities(c, shop, v, t, true, true, mode);
    AddLeavesSubtotal(c, shop, v, t, true, true, mode);
    var r := AddWith(c, shop, v, t, true, true, mode);
    if r.cart.Some? {
      var after := Quantities(r.cart.value.lines);
      QuantitiesKeys(r.cart.value.lines);
      if t > 0 {
        assert v in after;
      } else {
        var w := OtherElement(Quantities(c.lines).Keys, v);
        assert w in after;
      }
    }
  }

  /** A set that is not within {v} has an element other than v. */
  lemma OtherElement<T>(s: set<T>, v: T) returns (w: T)
    requires !(s <= {v})
    ensures w in s && w != v
  {
    var rest := s - {v};
    assert rest != {};
    w :| w in rest;
  }

  /** Replacing the quantity of a variant the cart holds by itself, when
      that is above stock, raises InsufficientStock and changes nothing;
      the retry with the stock quantity then raises nothing and sets the
      variant to exactly that quantity, dropping it when it is 0. */
  lemma ReplaceAboveStock(c: Cart, shop: Shop, v: VariantId, mode: SaveMode)
    requires UniqueVariants(c.lines) && v in Quantities(c.lines)
    requires Quantities(c.lines)[v] > StockQuantity(shop.stockOf(v))
    ensures var r := AddWith(c, shop, v, Quantities(c.lines)[v], true, true, mode);
      && r.error == Some(InsufficientStock(v))
      && r.cart.Some?
      && UniqueVariants(r.cart.value.lines)
      && Quantities(r.cart.value.lines) == Quantities(c.lines)
      && var s := StockQuantity(shop.stockOf(v));
         var retry := AddWith(r.cart.value, shop, v, s, true, true, mode);
         && retry.error.None?
         && (retry.cart.Some? ==>
               Quantities(retry.cart.value.lines) == (if s == 0 then Quantities(c.lines) - {v} else Quantities(c.lines)[v := s]))
  {
    var q := Quantities(c.lines)[v];
    assert QuantityOf(Some(c), v) == q && TargetQuantity(c, v, q, true) == q;
    AddErrors(c, shop, v, q, true, true, mode);
    var r := AddWith(c, shop, v, q, true, true, mode);
    assert r.error == Some(InsufficientStock(v));
    AddQuantities(c, shop, v, q, true, true, mode);
    assert Quantities(c.lines)[v := q] == Quantities(c.lines);
    ReplaceWithinStock(r.cart.value, shop, v, StockQuantity(shop.stockOf(v)), mode);
  }

  /** One cleaning step takes a cart holding Cleaned(lines, k) to one
      holding Cleaned(lines, k + 1), raising nothing; the cart is deleted
      only by the step on the last line, and only when nothing is left. */
  lemma CleanLineStep(cur: Cart, lines: seq<Line>, k: nat, shop: Shop, mode: SaveMode)
    requires UniqueVariants(lines) && k < |lines|
    requires UniqueVariants(cur.lines) && Quantities(cur.lines) == Cleaned(lines, k, shop)
    ensures var r := CleanLine(cur, lines[k], shop, mode);
      && r.error.None?
      && (r.cart.Some? ==> UniqueVariants(r.cart.value.lines) && Quantities(r.cart.value.lines) == Cleaned(lines, k + 1, shop))
      && (r.cart.Some? ==> SubtotalConsistent(r.cart.value) && |r.cart.value.lines| > 0)
      && (r.cart.None? ==> k + 1 == |lines| && Cleaned(lines, k + 1, shop) == map[])
  {
    var l := lines[k];
    var v := l.variant;
    var q0 := Quantities(cur.lines);
    CleanedEntries(lines, k, shop);
    assert v in q0 && q0[v] == l.quantity;
    assert k + 1 < |lines| ==> lines[k + 1].variant in q0 && lines[k + 1].variant != v;
    CleanLineSpec(cur, l, shop, mode);
  }

  /** Cleaning the line of a variant the cart holds, with the quantity the
      cart holds, raises nothing and clamps that quantity to the stock: the
      variant keeps the clamped quantity, or goes when that is 0, taking
      the cart with it when no other variant is left. */
  lemma CleanLineSpec(cur: Cart, l: Line, shop: Shop, mode: SaveMode)
    requires UniqueVariants(cur.lines)
    requires l.variant in Quantities(cur.lines) && Quantities(cur.lines)[l.variant] == l.quantity
    ensures var r := CleanLine(cur, l, shop, mode);
      var q0 := Quantities(cur.lines);
      var t := Clamp(l, shop);
      && r.error.None?
      && (r.cart.None? <==> t == 0 && q0.Keys <= {l.variant})
      && (r.cart.Some? ==>
            && UniqueVariants(r.cart.value.lines)
            && Quantities(r.cart.value.lines) == (if t == 0 then q0 - {l.variant} else q0[l.variant := t])
            && SubtotalConsistent(r.cart.value)
            && |r.cart.value.lines| > 0)
  {
    var v := l.variant;
    if l.quantity > StockQuantity(shop.stockOf(v)) {
      ReplaceAboveStock(cur, shop, v, mode);
      var c1 := AddWith(cur, shop, v, l.quantity, true, true, mode).cart.value;
      ReplaceWithinStock(c1, shop, v, StockQuantity(shop.stockOf(v)), mode);
    } else {
      ReplaceWithinStock(cur, shop, v, l.quantity, mode);
    }
  }

  /** As written, cleaning a line that keeps a positive quantity leaves the
      cart's subtotal where it was, even when the quantity was cut down to
      the stock: the quantity-only save never rewrites the line total. */
  lemma CleanLineAsWrittenKeepsSubtotal(cur: Cart, l: Line, shop: Shop)
    requires UniqueVariants(cur.lines) && SubtotalConsistent(cur)
    requires l.variant in Quantities(cur.lines) && Quantities(cur.lines)[l.variant] == l.quantity
    requires Clamp(l, shop) > 0
    ensures var r := CleanLine(cur, l, shop, QuantityOnly);
      && r.error.None? && r.cart.Some?
      && r.cart.value.subtotal == cur.subtotal
      && Quantities(r.cart.value.lines) == Quantities(cur.lines)[l.variant := Clamp(l, shop)]
  {
    var v := l.variant;
    var stock := StockQuantity(shop.stockOf(v));
    CleanLineSpec(cur, l, shop, QuantityOnly);
    QuantitiesOfUnique(cur.lines);
    var j :| 0 <= j < |cur.lines| && cur.lines[j].variant == v;
    GetOrCreateFound(cur, v, shop.price, j);
    if l.quantity <= stock {
      AddSettles(cur, shop, v, l.quantity, true, true, QuantityOnly, cur, j, l.quantity);
      QuantityOnlyKeepsSubtotal(cur, j, l.quantity, shop.price);
    } else {
      AddSettles(cur, shop, v, l.quantity, true, true, QuantityOnly, cur, j, l.quantity);
      AddSettles(cur, shop, v, stock, true, true, QuantityOnly, cur, j, stock);
      QuantityOnlyKeepsSubtotal(cur, j, stock, shop.price);
    }
  }

  /** remove_unavailable_variants: each line of the cart, as it was when the
      loop started, is cleaned in turn; an error other than the stock
      check's stops the loop and propagates. On a cart with one line per
      variant nothing is raised, a line within stock keeps its quantity, a
      line above stock is clamped to the stock quantity, a line whose
      variant has nothing in stock goes, and the cart is deleted when every
      line went. All of this holds for either save mode; the source runs
      QuantityOnly, whose stale totals CleanLineAsWrittenKeepsSubtotal shows. */
  method RemoveUnavailableVariants(c: Cart, shop: Shop, mode: SaveMode) returns (r: AddResult)
    ensures UniqueVariants(c.lines) ==> r.error.None?
    ensures UniqueVariants(c.lines) ==>
      forall j :: 0 <= j < |c.lines| ==> QuantityOf(r.cart, c.lines[j].variant) == Clamp(c.lines[j], shop)
    ensures UniqueVariants(c.lines) && r.cart.Some? ==>
      forall j :: 0 <= j < |c.lines| ==> (c.lines[j].variant in Quantities(r.cart.value.lines) <==> Clamp(c.lines[j], shop) > 0)
    ensures UniqueVariants(c.lines) && r.cart.Some? ==>
      forall w :: w in Quantities(r.cart.value.lines) ==> exists j :: 0 <= j < |c.lines| && c.lines[j].variant == w
    ensures UniqueVariants(c.lines) ==>
      (r.cart.None? <==> |c.lines| > 0 && forall j :: 0 <= j < |c.lines| ==> Clamp(c.lines[j], shop) == 0)
    ensures UniqueVariants(c.lines) && r.cart.Some? ==>
      UniqueVariants(r.cart.value.lines) && !HasUnavailableLine(r.cart.value, shop)
    ensures UniqueVariants(c.lines) && |c.lines| > 0 && r.cart.Some? ==> SubtotalConsistent(r.cart.value)
  {
    var lines := c.lines;
    var cur := Some(c);
    var k := 0;
    if UniqueVariants(lines) {
      QuantitiesOfUnique(lines);
    }
    while k < |lines| && cur.Some?
      invariant 0 <= k <= |lines|
      invariant UniqueVariants(lines) && cur.Some? ==>
        UniqueVariants(cur.value.lines) && Quantities(cur.value.lines) == Cleaned(lines, k, shop)
      invariant UniqueVariants(lines) && cur.Some? && k > 0 ==> SubtotalConsistent(cur.value) && |cur.value.lines| > 0
      invariant UniqueVariants(lines) && cur.None? ==> k == |lines| && k > 0 && Cleaned(lines, k, shop) == map[]
    {
      var next := CleanLine(cur.value, lines[k], shop, mode);
      if UniqueVariants(lines) {
        CleanLineStep(cur.value, lines, k, shop, mode);
      }
      if next.error.Some? {
        return next;
      }
      cur := next.cart;
      k := k + 1;
    }
    r := AddResult(cur, None);
    if UniqueVariants(lines) {
      CleanupOutcome(lines, shop, cur);
    }
  }

  /** What a cart holding Cleaned(lines, |lines|) means line by line. */
  lemma CleanupOutcome(lines: seq<Line>, shop: Shop, result: Option<Cart>)
    requires UniqueVariants(lines)
    requires result.Some? ==>
      UniqueVariants(result.value.lines) && Quantities(result.value.lines) == Cleaned(lines, |lines|, shop)
    requires result.None? ==> |lines| > 0 && Cleaned(lines, |lines|, shop) == map[]
    requires result.Some? && |lines| > 0 ==> |result.value.lines| > 0
    ensures forall j :: 0 <= j < |lines| ==> QuantityOf(result, lines[j].variant) == Clamp(lines[j], shop)
    ensures result.Some? ==>
      forall j :: 0 <= j < |lines| ==> (lines[j].variant in Quantities(result.value.lines) <==> Clamp(lines[j], shop) > 0)
    ensures result.Some? ==>
      forall w :: w in Quantities(result.value.lines) ==> exists j :: 0 <= j < |lines| && lines[j].variant == w
    ensures result.None? ==> forall j :: 0 <= j < |lines| ==> Clamp(lines[j], shop) == 0
    ensures result.Some? && |lines| > 0 ==> exists j :: 0 <= j < |lines| && Clamp(lines[j], shop) > 0
    ensures result.Some? ==> !HasUnavailableLine(result.value, shop)
  {
    CleanedEntries(lines, |lines|, shop);
    if result.Some? {
      CleanedWithinStock(lines, shop, result.value);
      if |lines| > 0 {
        CleanedNonEmpty(lines, shop, result.value);
      }
    }
  }

  /** No line of a cart holding Cleaned(lines, |lines|) exceeds its stock. */
  lemma CleanedWithinStock(lines: seq<Line>, shop: Shop, c: Cart)
    requires UniqueVariants(lines) && UniqueVariants(c.lines)
    requires Quantities(c.lines) == Cleaned(lines, |lines|, shop)
    ensures !HasUnavailableLine(c, shop)
  {
    CleanedEntries(lines, |lines|, shop);
    QuantitiesOfUnique(c.lines);
    forall p | 0 <= p < |c.lines| ensures !ExceedsStock(c.lines[p], shop) {
      var w := c.lines[p].variant;
      assert w in Quantities(c.lines);
      var j :| 0 <= j < |lines| && lines[j].variant == w;
    }
  }

  /** A non-empty cart holding Cleaned(lines, |lines|) keeps some line. */
  lemma CleanedNonEmpty(lines: seq<Line>, shop: Shop, c: Cart)
    requires UniqueVariants(lines) && |c.lines| > 0
    requires Quantities(c.lines) == Cleaned(lines, |lines|, shop)
    ensures exists j :: 0 <= j < |lines| && Clamp(lines[j], shop) > 0
  {
    CleanedEntries(lines, |lines|, shop);
    QuantitiesKeys(c.lines);
    var w := c.lines[0].variant;
    assert w in Quantities(c.lines);
    var j :| 0 <= j < |lines| && lines[j].variant == w;
    assert Clamp(lines[j], shop) > 0;
  }
}
