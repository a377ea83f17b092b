/** product/utils.py: the availability status of products and variants
    (two priority chains) and the display map that resolves the values in
    an attribute bag to attribute choices. */
module ProductUtils {
  import opened Common
  import opened Stock
  import opened Catalog

  datatype ProductStatus =
    | NotPublished
    | VariantsMissing
    | NotCarried
    | OutOfStock
    | LowStock
    | NotYetAvailable
    | ReadyForPurchase

  datatype VariantStatus = VariantNotCarried | VariantOutOfStock | VariantAvailable

  /** Some variant of the product has at least one stock record. */
  predicate HasStockRecords(p: Product) {
    exists i :: 0 <= i < |p.variants| && |p.variants[i].stock| > 0
  }

  /** Every variant of the product is in stock (vacuously so without variants). */
  predicate AllVariantsInStock(p: Product) {
    forall i :: 0 <= i < |p.variants| ==> VariantInStock(p.variants[i].stock)
  }

  /** get_product_availability_status: the first condition of the chain
      that holds decides. Each status is characterised below on its own,
      in terms of stock quantities rather than of the chain. */
  function ProductAvailabilityStatus(p: Product, today: Date): (r: ProductStatus)
    ensures r == NotPublished <==> !p.isPublished
    ensures r == VariantsMissing <==>
      p.isPublished && p.productType.hasVariants && |p.variants| == 0
    ensures r == NotCarried <==>
      && p.isPublished
      && !(p.productType.hasVariants && |p.variants| == 0)
      && forall i :: 0 <= i < |p.variants| ==> |p.variants[i].stock| == 0
    ensures r == OutOfStock <==>
      && p.isPublished
      && (exists i :: 0 <= i < |p.variants| && |p.variants[i].stock| > 0)
      && forall i :: 0 <= i < |p.variants| ==> StockQuantity(p.variants[i].stock) == 0
    ensures r == LowStock <==>
      && p.isPublished
      && (exists i :: 0 <= i < |p.variants| && StockQuantity(p.variants[i].stock) > 0)
      && (exists i :: 0 <= i < |p.variants| && StockQuantity(p.variants[i].stock) == 0)
    ensures r == NotYetAvailable <==>
      && p.isPublished
      && |p.variants| > 0
      && (forall i :: 0 <= i < |p.variants| ==> StockQuantity(p.variants[i].stock) > 0)
      && p.availableOn.Some? && today < p.availableOn.value
    ensures r == ReadyForPurchase <==>
      && p.isPublished
      && |p.variants| > 0
      && (forall i :: 0 <= i < |p.variants| ==> StockQuantity(p.variants[i].stock) > 0)
      && (p.availableOn.None? || p.availableOn.value <= today)
  {
    VariantsInStockIff(p);
    ProductInStockIff(p);
    if !p.isPublished then NotPublished
    else if p.productType.hasVariants && |p.variants| == 0 then VariantsMissing
    else if !HasStockRecords(p) then
      assert |p.variants| > 0 ==> StockQuantity(p.variants[0].stock) == 0;
      NotCarried
    else if !ProductInStock(p) then OutOfStock
    else if !AllVariantsInStock(p) then LowStock
    else if !ProductIsAvailable(p, today) && p.availableOn.Some? then NotYetAvailable
    else ReadyForPurchase
  }

  lemma VariantsInStockIff(p: Product)
    ensures AllVariantsInStock(p) <==> forall i :: 0 <= i < |p.variants| ==> StockQuantity(p.variants[i].stock) > 0
    ensures forall i :: 0 <= i < |p.variants| ==> (VariantInStock(p.variants[i].stock) <==> StockQuantity(p.variants[i].stock) > 0)
  {
    forall i | 0 <= i < |p.variants| {
      InStockIffStockQuantityPositive(p.variants[i].stock);
    }
  }

  /** A product type without variants never yields VariantsMissing: such a
      product with no variants is reported as not carried. */
  lemma NoVariantsMissingWithoutVariantType(p: Product, today: Date)
    requires !p.productType.hasVariants
    ensures ProductAvailabilityStatus(p, today) != VariantsMissing
    ensures p.isPublished && |p.variants| == 0 ==> ProductAvailabilityStatus(p, today) == NotCarried
  {
  }

  /** A published product whose only variant has stock records but nothing
      available is out of stock, whatever its release date. */
  lemma SingleVariantWithoutStockIsOutOfStock(p: Product, today: Date)
    requires p.isPublished && |p.variants| == 1 && |p.variants[0].stock| > 0
    requires forall j :: 0 <= j < |p.variants[0].stock| ==> QuantityAvailable(p.variants[0].stock[j]) == 0
    ensures ProductAvailabilityStatus(p, today) == OutOfStock
  {
    var records := p.variants[0].stock;
    assert StockQuantity(records) == 0;
  }

  /** Once a published product passes the stock tests of the chain, its
      release date alone decides: it is not yet available exactly when
      is_available fails, and ready for purchase exactly when it holds. */
  lemma ReleaseDateDecides(p: Product, today: Date)
    requires p.isPublished && |p.variants| > 0 && AllVariantsInStock(p)
    ensures ProductAvailabilityStatus(p, today) == NotYetAvailable <==> !ProductIsAvailable(p, today)
    ensures ProductAvailabilityStatus(p, today) == ReadyForPurchase <==> ProductIsAvailable(p, today)
  {
    VariantsInStockIff(p);
  }

  /** A product available on one day stays available on every later day. */
  lemma AvailableFromThenOn(p: Product, day: Date, later: Date)
    requires day <= later && ProductIsAvailable(p, day)
    ensures ProductIsAvailable(p, later)
    ensures ProductAvailabilityStatus(p, later) != NotYetAvailable
  {
  }

  /** A product ready for purchase can be bought now: it is published,
      available today, and every one of its variants is in stock. */
  lemma ReadyMeansPurchasable(p: Product, today: Date)
    requires ProductAvailabilityStatus(p, today) == ReadyForPurchase
    ensures p.isPublished && ProductIsAvailable(p, today) && ProductInStock(p)
    ensures forall i :: 0 <= i < |p.variants| ==> VariantInStock(p.variants[i].stock)
  {
    VariantsInStockIff(p);
    ProductInStockIff(p);
    assert StockQuantity(p.variants[0].stock) > 0;
  }

  /** get_variant_availability_status. */
  function VariantAvailabilityStatus(v: Variant): (r: VariantStatus)
    ensures r == VariantNotCarried <==> |v.stock| == 0
    ensures r == VariantOutOfStock <==> |v.stock| > 0 && StockQuantity(v.stock) == 0
    ensures r == VariantAvailable <==> StockQuantity(v.stock) > 0
  {
    InStockIffStockQuantityPositive(v.stock);
    if |v.stock| == 0 then VariantNotCarried
    else if !VariantInStock(v.stock) then VariantOutOfStock
    else VariantAvailable
  }

  // ---- the attribute display map -----------------------------------------

  /** An attribute choice value (AttributeChoiceValue). */
  datatype Choice = Choice(pk: int, name: string)

  /** A product attribute with its choice values, in query order. */
  datatype Attribute = Attribute(pk: int, slug: string, name: string, values: seq<Choice>)

  /** What the display map shows for an attribute: the matching choice, or
      the stored text itself. */
  datatype Display = ChoiceValue(choice: Choice) | RawValue(text: string)

  /** The key a choice gets in the lookup dict: its pk as text. */
  function ChoiceKey(c: Choice): string {
    IntToString(c.pk)
  }

  /** {smart_text(a.pk): a for a in values}.get(text), as a position: among
      the choices whose key is the text, the last one (later entries of the
      dict display overwrite earlier ones). */
  function FindChoice(values: seq<Choice>, text: string): (r: Option<nat>)
    ensures r.None? <==> forall i :: 0 <= i < |values| ==> ChoiceKey(values[i]) != text
    ensures r.Some? ==> r.value < |values| && ChoiceKey(values[r.value]) == text
    ensures r.Some? ==> forall j :: r.value < j < |values| ==> ChoiceKey(values[j]) != text
  {
    if |values| == 0 then None
    else if ChoiceKey(values[|values| - 1]) == text then Some(|values| - 1)
    else
      var init := values[..|values| - 1];
      assert forall j :: 0 <= j < |init| ==> init[j] == values[j];
      FindChoice(init, text)
  }

  /** The display entry for one attribute whose stored text is `text`. */
  function Resolve(a: Attribute, text: string): Display {
    match FindChoice(a.values, text)
    case Some(i) => ChoiceValue(a.values[i])
    case None => RawValue(text)
  }

  /** The stored text of an attribute in the bag, when present and non-empty. */
  function StoredText(bag: Bag, a: Attribute): Option<string> {
    match GetAttribute(bag, IntPk(a.pk))
    case Some(t) => if |t| > 0 then Some(t) else None
    case None => None
  }

  /** get_attributes_display_map, folded over the attributes in order. */
  function DisplayMap(bag: Bag, attributes: seq<Attribute>): map<int, Display> {
    if |attributes| == 0 then map[]
    else
      var a := attributes[|attributes| - 1];
      var m := DisplayMap(bag, attributes[..|attributes| - 1]);
      match StoredText(bag, a)
      case Some(t) => m[a.pk := Resolve(a, t)]
      case None => m
  }

  ghost predicate Shown(bag: Bag, attributes: seq<Attribute>, k: int) {
    exists i :: 0 <= i < |attributes| && attributes[i].pk == k && StoredText(bag, attributes[i]).Some?
  }

  /** The display map has a key exactly for the attributes whose stored
      value is present and non-empty. */
  lemma {:induction false} DisplayMapKeys(bag: Bag, attributes: seq<Attribute>)
    ensures forall k :: k in DisplayMap(bag, attributes) <==> Shown(bag, attributes, k)
  {
    if |attributes| > 0 {
      DisplayMapKeys(bag, attributes[..|attributes| - 1]);
      forall k {
        ShownOfInit(bag, attributes, k);
      }
    }
  }

  /** An attribute is shown by a list exactly when it is shown by all but
      the last entry or by the last entry. */
  lemma ShownOfInit(bag: Bag, attributes: seq<Attribute>, k: int)
    requires |attributes| > 0
    ensures var a := attributes[|attributes| - 1];
      Shown(bag, attributes, k) <==>
        Shown(bag, attributes[..|attributes| - 1], k) || (a.pk == k && StoredText(bag, a).Some?)
  {
    var init := attributes[..|attributes| - 1];
    if Shown(bag, attributes, k) {
      var i :| 0 <= i < |attributes| && attributes[i].pk == k && StoredText(bag, attributes[i]).Some?;
      if i < |init| {
        assert init[i] == attributes[i];
      }
    }
    if Shown(bag, init, k) {
      var i :| 0 <= i < |init| && init[i].pk == k && StoredText(bag, init[i]).Some?;
      assert attributes[i] == init[i];
    }
  }

  /** The entry of an attribute (the last one with its pk) is its resolved
      stored value: a choice whose key is the stored text, or, when no
      choice matches, that text itself. */
  lemma DisplayMapValues(bag: Bag, attributes: seq<Attribute>, i: nat)
    requires i < |attributes|
    requires forall j :: i < j < |attributes| ==> attributes[j].pk != attributes[i].pk
    requires StoredText(bag, attributes[i]).Some?
    ensures attributes[i].pk in DisplayMap(bag, attributes)
    ensures var d := DisplayMap(bag, attributes)[attributes[i].pk];
      var text := bag[IntToString(attributes[i].pk)];
      && d == Resolve(attributes[i], text)
      && (d.ChoiceValue? ==> (d.choice in attributes[i].values && ChoiceKey(d.choice) == text))
      && (d.RawValue? ==> (d.text == text && forall c :: c in attributes[i].values ==> ChoiceKey(c) != text))
  {
    DisplayMapEntry(bag, attributes, i);
    ResolveMeaning(attributes[i], bag[IntToString(attributes[i].pk)]);
  }

  /** The entry of the last attribute with a pk is that attribute's resolved text. */
  lemma {:induction false} DisplayMapEntry(bag: Bag, attributes: seq<Attribute>, i: nat)
    requires i < |attributes|
    requires forall j :: i < j < |attributes| ==> attributes[j].pk != attributes[i].pk
    requires StoredText(bag, attributes[i]).Some?
    ensures attributes[i].pk in DisplayMap(bag, attributes)
    ensures DisplayMap(bag, attributes)[attributes[i].pk] == Resolve(attributes[i], bag[IntToString(attributes[i].pk)])
    decreases |attributes|
  {
    var init := attributes[..|attributes| - 1];
    if i < |attributes| - 1 {
      assert forall j :: 0 <= j < |init| ==> init[j] == attributes[j];
      DisplayMapEntry(bag, init, i);
    }
  }

  /** A resolved text is a choice keyed by that text, or the text itself
      when no choice has that key. */
  lemma ResolveMeaning(a: Attribute, text: string)
    ensures var d := Resolve(a, text);
      && (d.ChoiceValue? ==> (d.choice in a.values && ChoiceKey(d.choice) == text))
      && (d.RawValue? ==> (d.text == text && forall c :: c in a.values ==> ChoiceKey(c) != text))
  {
  }
}
