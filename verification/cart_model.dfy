/** cart/models.py: the cart, its status machine, its lines and the SQL
    aggregates (subtotal, total quantity) computed over them. A cart owns
    its lines; each line is keyed by the variant it holds. */
module CartModel {
  import opened Common
  import opened Catalog

  /** A point in time; "now" is always passed in. */
  type Time = int

  datatype CartStatus = Open | Saved | WaitingForPayment | Checkout | Canceled

  /** The stored code of each status. */
  function StatusCode(s: CartStatus): string {
    match s
    case Open => "open"
    case Saved => "saved"
    case WaitingForPayment => "payment"
    case Checkout => "checkout"
    case Canceled => "canceled"
  }

  /** Membership in dict(CartStatus.CHOICES): the status a code stands for. */
  function ParseStatus(code: string): (r: Option<CartStatus>)
    ensures r.Some? ==> StatusCode(r.value) == code
    ensures r.None? <==> forall s :: StatusCode(s) != code
  {
    if code == "open" then Some(Open)
    else if code == "saved" then Some(Saved)
    else if code == "payment" then Some(WaitingForPayment)
    else if code == "checkout" then Some(Checkout)
    else if code == "canceled" then Some(Canceled)
    else None
  }

  /** Every status code reads back as its status. */
  lemma StatusCodeRoundTrip(s: CartStatus)
    ensures ParseStatus(StatusCode(s)) == Some(s)
  {
  }

  /** One cart line: the variant, how many, and the stored line total
      (NULL until a save with a positive quantity computes it). */
  datatype Line = Line(variant: VariantId, quantity: nat, total: Option<Cents>)

  datatype Cart = Cart(
    status: CartStatus,
    lastStatusChange: Option<Time>,
    lines: seq<Line>,
    subtotal: Option<Cents>)

  datatype StatusError = UnexpectedStatus(code: string)

  /** Cart.change_status: an unknown code raises and nothing changes; the
      current status is a no-op; another valid status is stored together
      with the time of the change. */
  function ChangeStatus(c: Cart, code: string, now: Time): (r: Result<Cart, StatusError>)
    ensures r.Failure? <==> forall s :: StatusCode(s) != code
    ensures r.Failure? ==> r.error == UnexpectedStatus(code)
    ensures r.Success? ==>
      StatusCode(r.value.status) == code && r.value.lines == c.lines && r.value.subtotal == c.subtotal
    ensures r.Success? && StatusCode(c.status) == code ==> r.value == c
    ensures r.Success? && StatusCode(c.status) != code ==> r.value.lastStatusChange == Some(now)
  {
    match ParseStatus(code)
    case None => Failure(UnexpectedStatus(code))
    case Some(s) =>
      if StatusCode(c.status) != code then Success(c.(status := s, lastStatusChange := Some(now)))
      else Success(c)
  }

  // ---- SQL aggregates ------------------------------------------------------

  /** SUM over a column: NULLs are skipped, and the sum of nothing is NULL. */
  function AddNullable(acc: Option<int>, x: Option<int>): Option<int> {
    match (acc, x)
    case (None, _) => x
    case (Some(a), None) => Some(a)
    case (Some(a), Some(b)) => Some(a + b)
  }

  /** SUM(total_price) over the lines. */
  function SumTotals(lines: seq<Line>): (r: Option<Cents>)
    ensures r.None? <==> forall i :: 0 <= i < |lines| ==> lines[i].total.None?
  {
    if |lines| == 0 then None
    else
      var init := lines[..|lines| - 1];
      assert forall i :: 0 <= i < |init| ==> init[i] == lines[i];
      AddNullable(SumTotals(init), lines[|lines| - 1].total)
  }

  function TotalOrZero(l: Line): Cents {
    match l.total
    case None => 0
    case Some(t) => t
  }

  /** The plain sum of the line totals, NULL counted as zero, from the front. */
  function SumFromFront(lines: seq<Line>): Cents {
    if |lines| == 0 then 0 else TotalOrZero(lines[0]) + SumFromFront(lines[1..])
  }

  lemma {:induction false} SumFromFrontAppend(lines: seq<Line>, l: Line)
    ensures SumFromFront(lines + [l]) == SumFromFront(lines) + TotalOrZero(l)
  {
    if |lines| > 0 {
      assert (lines + [l])[1..] == lines[1..] + [l];
      SumFromFrontAppend(lines[1..], l);
    }
  }

  /** The subtotal is NULL when no line has a total, and otherwise the plain
      sum of the line totals. */
  lemma {:induction false} SumTotalsMeaning(lines: seq<Line>)
    ensures SumTotals(lines).Some? ==> SumTotals(lines).value == SumFromFront(lines)
    ensures SumTotals(lines).None? ==> SumFromFront(lines) == 0
  {
    if |lines| > 0 {
      var init := lines[..|lines| - 1];
      SumTotalsMeaning(init);
      SumFromFrontAppend(init, lines[|lines| - 1]);
      assert init + [lines[|lines| - 1]] == lines;
    }
  }

  predicate SubtotalConsistent(c: Cart) {
    c.subtotal == SumTotals(c.lines)
  }

  /** Cart.update_subtotal: the subtotal becomes the sum of the line totals. */
  function UpdateSubtotal(c: Cart): (r: Cart)
    ensures SubtotalConsistent(r)
    ensures r.(subtotal := c.subtotal) == c
  {
    c.(subtotal := SumTotals(c.lines))
  }

  /** Cart.get_total_quantity_of_items: SUM(quantity), NULL for no lines,
      otherwise the plain sum of the line quantities. */
  function TotalQuantity(c: Cart): (r: Option<int>)
    ensures r.None? <==> |c.lines| == 0
    ensures r.Some? ==> r.value == QuantitySum(c.lines)
    ensures r.Some? ==> forall i :: 0 <= i < |c.lines| ==> c.lines[i].quantity <= r.value
    ensures r.Some? ==> (r.value == 0 <==> forall i :: 0 <= i < |c.lines| ==> c.lines[i].quantity == 0)
  {
    SumQuantities(c.lines)
  }

  /** SUM(quantity), row by row from the last line back. */
  function SumQuantities(lines: seq<Line>): (r: Option<int>)
    ensures r.None? <==> |lines| == 0
    ensures r.Some? ==> r.value == QuantitySum(lines)
    ensures r.Some? ==> forall i :: 0 <= i < |lines| ==> 0 <= lines[i].quantity <= r.value
    ensures r.Some? ==> (r.value == 0 <==> forall i :: 0 <= i < |lines| ==> lines[i].quantity == 0)
  {
    if |lines| == 0 then None
    else
      var init := lines[..|lines| - 1];
      var last := lines[|lines| - 1].quantity;
      assert forall i :: 0 <= i < |init| ==> init[i] == lines[i];
      assert init + [lines[|lines| - 1]] == lines;
      QuantitySumAppend(init, lines[|lines| - 1]);
      // quantity is never NULL, so SUM only starts or extends the sum
      match SumQuantities(init)
      case None => Some(last)
      case Some(a) => Some(a + last)
  }

  /** The plain sum of the line quantities, from the front. */
  function QuantitySum(lines: seq<Line>): nat {
    if |lines| == 0 then 0 else lines[0].quantity + QuantitySum(lines[1..])
  }

  /** Appending a line adds its quantity to the sum. */
  lemma {:induction false} QuantitySumAppend(lines: seq<Line>, l: Line)
    ensures QuantitySum(lines + [l]) == QuantitySum(lines) + l.quantity
  {
    if |lines| > 0 {
      assert (lines + [l])[1..] == lines[1..] + [l];
      QuantitySumAppend(lines[1..], l);
    }
  }

  /** Removing a line subtracts its quantity from the sum. */
  lemma {:induction false} QuantitySumRemove(lines: seq<Line>, i: nat)
    requires i < |lines|
    ensures QuantitySum(lines[..i] + lines[i + 1..]) == QuantitySum(lines) - lines[i].quantity
  {
    if i > 0 {
      assert (lines[..i] + lines[i + 1..])[1..] == lines[1..][..i - 1] + lines[1..][i..];
      QuantitySumRemove(lines[1..], i - 1);
    } else {
      assert lines[..i] + lines[i + 1..] == lines[1..];
    }
  }

  /** Replacing a line changes the sum by the difference of the quantities. */
  lemma {:induction false} QuantitySumUpdate(lines: seq<Line>, i: nat, l: Line)
    requires i < |lines|
    ensures QuantitySum(lines[i := l]) == QuantitySum(lines) - lines[i].quantity + l.quantity
  {
    if i > 0 {
      assert lines[i := l][1..] == lines[1..][i - 1 := l];
      QuantitySumUpdate(lines[1..], i - 1, l);
    } else {
      assert lines[i := l][1..] == lines[1..];
    }
  }

  // ---- lines keyed by variant ----------------------------------------------

  /** No two lines hold the same variant. */
  predicate UniqueVariants(lines: seq<Line>) {
    forall i, j :: 0 <= i < j < |lines| ==> lines[i].variant != lines[j].variant
  }

  /** The positions of the lines holding variant v, in increasing order. */
  function Matches(lines: seq<Line>, v: VariantId): (r: seq<nat>)
    ensures forall j :: j in r <==> 0 <= j < |lines| && lines[j].variant == v
    ensures forall a, b :: 0 <= a < b < |r| ==> r[a] < r[b]
    ensures forall a :: 0 <= a < |r| ==> r[a] < |lines|
  {
    if |lines| == 0 then []
    else
      var n := |lines| - 1;
      var init := Matches(lines[..n], v);
      if lines[n].variant == v then init + [n] else init
  }

  /** With unique variants, a variant is held by no line or by exactly the
      one at position i. */
  lemma {:induction false} MatchesOfUnique(lines: seq<Line>, v: VariantId, i: nat)
    requires UniqueVariants(lines) && i < |lines| && lines[i].variant == v
    ensures Matches(lines, v) == [i]
  {
    var n := |lines| - 1;
    var init := lines[..n];
    assert forall j :: 0 <= j < |init| ==> init[j] == lines[j];
    if i == n {
      MatchesOfAbsent(init, v);
    } else {
      MatchesOfUnique(init, v, i);
    }
  }

  /** A variant no line holds has no matches. */
  lemma {:induction false} MatchesOfAbsent(lines: seq<Line>, v: VariantId)
    requires forall j :: 0 <= j < |lines| ==> lines[j].variant != v
    ensures Matches(lines, v) == []
  {
    if |lines| > 0 {
      var init := lines[..|lines| - 1];
      assert forall j :: 0 <= j < |init| ==> init[j] == lines[j];
      MatchesOfAbsent(init, v);
    }
  }

  /** The cart's contents as a map from variant to quantity. */
  function Quantities(lines: seq<Line>): map<VariantId, nat> {
    if |lines| == 0 then map[]
    else Quantities(lines[..|lines| - 1])[lines[|lines| - 1].variant := lines[|lines| - 1].quantity]
  }

  /** The quantity of a variant in a cart that may have been deleted (0 when absent). */
  function QuantityOf(c: Option<Cart>, v: VariantId): nat {
    match c
    case None => 0
    case Some(cart) => if v in Quantities(cart.lines) then Quantities(cart.lines)[v] else 0
  }

  lemma {:induction false} QuantitiesKeys(lines: seq<Line>)
    ensures forall v :: v in Quantities(lines) <==> exists j :: 0 <= j < |lines| && lines[j].variant == v
  {
    if |lines| > 0 {
      var init := lines[..|lines| - 1];
      QuantitiesKeys(init);
      assert forall j :: 0 <= j < |init| ==> init[j] == lines[j];
    }
  }

  lemma {:induction false} QuantitiesValues(lines: seq<Line>)
    requires UniqueVariants(lines)
    ensures forall j :: 0 <= j < |lines| ==>
      lines[j].variant in Quantities(lines) && Quantities(lines)[lines[j].variant] == lines[j].quantity
  {
    if |lines| > 0 {
      var init := lines[..|lines| - 1];
      assert forall j :: 0 <= j < |init| ==> init[j] == lines[j];
      QuantitiesValues(init);
    }
  }

  /** The map view of unique lines: a key for every line, with its quantity. */
  lemma QuantitiesOfUnique(lines: seq<Line>)
    requires UniqueVariants(lines)
    ensures forall v :: v in Quantities(lines) <==> exists j :: 0 <= j < |lines| && lines[j].variant == v
    ensures forall j :: 0 <= j < |lines| ==> Quantities(lines)[lines[j].variant] == lines[j].quantity
  {
    QuantitiesKeys(lines);
    QuantitiesValues(lines);
  }

  /** Replacing a line by one for the same variant updates that entry only. */
  lemma QuantitiesAfterUpdate(lines: seq<Line>, i: nat, l: Line)
    requires UniqueVariants(lines) && i < |lines| && l.variant == lines[i].variant
    ensures UniqueVariants(lines[i := l])
    ensures Quantities(lines[i := l]) == Quantities(lines)[l.variant := l.quantity]
  {
    var after := lines[i := l];
    assert forall j :: 0 <= j < |after| ==> after[j].variant == lines[j].variant;
    QuantitiesKeys(lines);
    assert l.variant in Quantities(lines);
    var expected := Quantities(lines)[l.variant := l.quantity];
    forall w ensures (w in Quantities(after) <==> w in expected) && (w in expected ==> Quantities(after)[w] == expected[w]) {
      UpdatedEntry(lines, after, i, w);
    }
  }

  /** One key of the map view after line i is replaced by `after[i]`, a
      line for the same variant. */
  lemma UpdatedEntry(lines: seq<Line>, after: seq<Line>, i: nat, w: VariantId)
    requires UniqueVariants(lines) && i < |lines| && |after| == |lines|
    requires forall j :: 0 <= j < |lines| && j != i ==> after[j] == lines[j]
    requires after[i].variant == lines[i].variant
    ensures UniqueVariants(after)
    ensures w in Quantities(after) <==> w in Quantities(lines)
    ensures w in Quantities(after) ==>
      Quantities(after)[w] == (if w == lines[i].variant then after[i].quantity else Quantities(lines)[w])
  {
    assert forall j :: 0 <= j < |after| ==> after[j].variant == lines[j].variant;
    QuantitiesOfUnique(lines);
    QuantitiesOfUnique(after);
    if w in Quantities(lines) {
      SameVariantAt(lines, after, w);
    }
    if w in Quantities(after) {
      SameVariantAt(after, lines, w);
    }
  }

  /** Two line lists with the same variant at every position hold the same
      variants. */
  lemma SameVariantAt(a: seq<Line>, b: seq<Line>, w: VariantId)
    requires |a| == |b| && forall j :: 0 <= j < |a| ==> a[j].variant == b[j].variant
    requires exists j :: 0 <= j < |a| && a[j].variant == w
    ensures exists j :: 0 <= j < |b| && b[j].variant == w
  {
    var j :| 0 <= j < |a| && a[j].variant == w;
    assert b[j].variant == w;
  }

  /** Removing a line removes its variant's entry only. */
  lemma QuantitiesAfterRemove(lines: seq<Line>, i: nat)
    requires UniqueVariants(lines) && i < |lines|
    ensures UniqueVariants(lines[..i] + lines[i + 1..])
    ensures Quantities(lines[..i] + lines[i + 1..]) == Quantities(lines) - {lines[i].variant}
  {
    RemoveKeepsUnique(lines, i);
    RemoveAt(lines, i);
    QuantitiesOfRemoval(lines, lines[..i] + lines[i + 1..], i);
  }

  /** The map view of `after`, the lines with the one at position i taken out. */
  lemma QuantitiesOfRemoval(lines: seq<Line>, after: seq<Line>, i: nat)
    requires UniqueVariants(lines) && UniqueVariants(after) && i < |lines| && |after| == |lines| - 1
    requires forall j :: 0 <= j < i ==> after[j] == lines[j]
    requires forall j :: i < j < |lines| ==> after[j - 1] == lines[j]
    ensures Quantities(after) == Quantities(lines) - {lines[i].variant}
  {
    var expected := Quantities(lines) - {lines[i].variant};
    forall w ensures (w in Quantities(after) <==> w in expected) && (w in expected ==> Quantities(after)[w] == expected[w]) {
      RemovedEntry(lines, after, i, w);
    }
  }

  /** One key of the map view after removing the line at position i. */
  lemma RemovedEntry(lines: seq<Line>, after: seq<Line>, i: nat, w: VariantId)
    requires UniqueVariants(lines) && UniqueVariants(after) && i < |lines| && |after| == |lines| - 1
    requires forall j :: 0 <= j < i ==> after[j] == lines[j]
    requires forall j :: i < j < |lines| ==> after[j - 1] == lines[j]
    ensures w in Quantities(after) <==> w in Quantities(lines) && w != lines[i].variant
    ensures w in Quantities(after) ==> Quantities(after)[w] == Quantities(lines)[w]
  {
    QuantitiesOfUnique(lines);
    QuantitiesOfUnique(after);
    if w in Quantities(lines) && w != lines[i].variant {
      RemovedEntryKept(lines, after, i, w);
    }
    if w in Quantities(after) {
      RemovedEntryFrom(lines, after, i, w);
    }
  }

  /** A line other than the removed one is still at hand, shifted left
      past position i. */
  lemma RemovedEntryKept(lines: seq<Line>, after: seq<Line>, i: nat, w: VariantId)
    requires UniqueVariants(lines) && i < |lines| && |after| == |lines| - 1
    requires forall j :: 0 <= j < i ==> after[j] == lines[j]
    requires forall j :: i < j < |lines| ==> after[j - 1] == lines[j]
    requires exists j :: 0 <= j < |lines| && lines[j].variant == w && w != lines[i].variant
    ensures exists j, k :: 0 <= j < |after| && 0 <= k < |lines| && after[j] == lines[k] && lines[k].variant == w
  {
    var k :| 0 <= k < |lines| && lines[k].variant == w && w != lines[i].variant;
    var j := if k < i then k else k - 1;
    assert after[j] == lines[k];
  }

  /** Every line after the removal was a line before it, other than the
      removed one. */
  lemma RemovedEntryFrom(lines: seq<Line>, after: seq<Line>, i: nat, w: VariantId)
    requires UniqueVariants(lines) && i < |lines| && |after| == |lines| - 1
    requires forall j :: 0 <= j < i ==> after[j] == lines[j]
    requires forall j :: i < j < |lines| ==> after[j - 1] == lines[j]
    requires exists j :: 0 <= j < |after| && after[j].variant == w
    ensures exists j :: 0 <= j < |lines| && lines[j].variant == w && j != i
  {
    var j' :| 0 <= j' < |after| && after[j'].variant == w;
    var j := if j' < i then j' else j' + 1;
    assert after[j'] == lines[j];
  }

  lemma RemoveKeepsUnique(lines: seq<Line>, i: nat)
    requires UniqueVariants(lines) && i < |lines|
    ensures UniqueVariants(lines[..i] + lines[i + 1..])
  {
    var after := lines[..i] + lines[i + 1..];
    RemoveAt(lines, i);
    forall a, b | 0 <= a < b < |after| ensures after[a].variant != after[b].variant {
      var a' := if a < i then a else a + 1;
      var b' := if b < i then b else b + 1;
      assert after[a] == lines[a'] && after[b] == lines[b'];
    }
  }

  lemma RemoveAt<T>(s: seq<T>, i: nat)
    requires i < |s|
    ensures |s[..i] + s[i + 1..]| == |s| - 1
    ensures forall j :: 0 <= j < i ==> (s[..i] + s[i + 1..])[j] == s[j]
    ensures forall j :: i < j < |s| ==> (s[..i] + s[i + 1..])[j - 1] == s[j]
  {
  }

  /** Appending a line for a new variant adds its entry. */
  lemma QuantitiesAfterAppend(lines: seq<Line>, l: Line)
    requires UniqueVariants(lines) && l.variant !in Quantities(lines)
    ensures UniqueVariants(lines + [l])
    ensures Quantities(lines + [l]) == Quantities(lines)[l.variant := l.quantity]
  {
    QuantitiesKeys(lines);
    assert (lines + [l])[..|lines|] == lines;
  }

  // ---- line totals ---------------------------------------------------------

  /** Every line with a positive quantity stores quantity times its price. */
  ghost predicate LineTotalsConsistent(lines: seq<Line>, price: VariantId -> Cents) {
    forall i :: 0 <= i < |lines| && lines[i].quantity >= 1 ==>
      lines[i].total == Some(lines[i].quantity * price(lines[i].variant))
  }

  /** Deleting a line keeps the other lines' totals consistent. */
  lemma LineTotalsAfterRemove(lines: seq<Line>, price: VariantId -> Cents, i: nat)
    requires i < |lines| && LineTotalsConsistent(lines, price)
    ensures LineTotalsConsistent(lines[..i] + lines[i + 1..], price)
  {
    var after := lines[..i] + lines[i + 1..];
    forall k | 0 <= k < |after| && after[k].quantity >= 1
      ensures after[k].total == Some(after[k].quantity * price(after[k].variant))
    {
      if k < i {
        assert after[k] == lines[k];
      } else {
        assert after[k] == lines[k + 1];
      }
    }
  }

  /** Appending a line whose total is consistent keeps all totals consistent. */
  lemma LineTotalsAfterAppend(lines: seq<Line>, price: VariantId -> Cents, l: Line)
    requires LineTotalsConsistent(lines, price)
    requires l.quantity >= 1 ==> l.total == Some(l.quantity * price(l.variant))
    ensures LineTotalsConsistent(lines + [l], price)
  {
    var after := lines + [l];
    assert forall k :: 0 <= k < |lines| ==> after[k] == lines[k];
  }
}
