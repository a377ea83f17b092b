/** The catalog entities of product/models.py as values: product types,
    products, variants with their stock records, the string-keyed attribute
    bag both products and variants carry, and category paths. */
module Catalog {
  import opened Common
  import opened Stock

  type VariantId = int

  /** A calendar day, numbered; "today" is always passed in. */
  type Date = int

  /** The attribute bag (an HStore column): text keys to text values. */
  type Bag = map<string, string>

  datatype ProductType = ProductType(hasVariants: bool)

  datatype Variant = Variant(id: VariantId, stock: seq<StockRecord>, attributes: Bag)

  datatype Product = Product(
    productType: ProductType,
    isPublished: bool,
    availableOn: Option<Date>,
    variants: seq<Variant>,
    attributes: Bag)

  // ---- the attribute bag -------------------------------------------------

  /** attributes.get(smart_text(pk)). */
  function GetAttribute(bag: Bag, pk: Pk): (r: Option<string>)
    ensures r.Some? <==> SmartText(pk) in bag
    ensures r.Some? ==> r.value == bag[SmartText(pk)]
  {
    if SmartText(pk) in bag then Some(bag[SmartText(pk)]) else None
  }

  /** attributes[smart_text(pk)] = smart_text(value_pk). */
  function SetAttribute(bag: Bag, pk: Pk, value: Pk): (r: Bag)
    ensures r.Keys == bag.Keys + {SmartText(pk)}
    ensures GetAttribute(r, pk) == Some(SmartText(value))
    ensures forall k :: k in bag && k != SmartText(pk) ==> k in r && r[k] == bag[k]
  {
    bag[SmartText(pk) := SmartText(value)]
  }

  /** Product.set_attribute: only the bag changes, and only under the key. */
  function SetProductAttribute(p: Product, pk: Pk, value: Pk): (r: Product)
    ensures GetAttribute(r.attributes, pk) == Some(SmartText(value))
    ensures forall other :: SmartText(other) != SmartText(pk) ==>
      GetAttribute(r.attributes, other) == GetAttribute(p.attributes, other)
    ensures r.(attributes := p.attributes) == p
  {
    p.(attributes := SetAttribute(p.attributes, pk, value))
  }

  /** ProductVariant.set_attribute: only the bag changes, and only under the key. */
  function SetVariantAttribute(v: Variant, pk: Pk, value: Pk): (r: Variant)
    ensures GetAttribute(r.attributes, pk) == Some(SmartText(value))
    ensures forall other :: SmartText(other) != SmartText(pk) ==>
      GetAttribute(r.attributes, other) == GetAttribute(v.attributes, other)
    ensures r.(attributes := v.attributes) == v
  {
    v.(attributes := SetAttribute(v.attributes, pk, value))
  }

  /** Keys are stringified: the integer n and the text of n name one entry,
      while two different integers name two different entries. */
  lemma KeysAreStringified(bag: Bag, a: int, b: int, value: Pk)
    ensures GetAttribute(bag, IntPk(a)) == GetAttribute(bag, TextPk(IntToString(a)))
    ensures a != b ==> GetAttribute(SetAttribute(bag, IntPk(a), value), IntPk(b)) == GetAttribute(bag, IntPk(b))
  {
    IntToStringInjective(a, b);
  }

  // ---- stock and availability of products --------------------------------

  /** Product.is_in_stock: some variant is in stock. */
  predicate ProductInStock(p: Product) {
    exists i :: 0 <= i < |p.variants| && VariantInStock(p.variants[i].stock)
  }

  /** A product is in stock exactly when one of its variants has positive
      stock quantity; a product without variants never is. */
  lemma ProductInStockIff(p: Product)
    ensures ProductInStock(p) <==> exists i :: 0 <= i < |p.variants| && StockQuantity(p.variants[i].stock) > 0
    ensures |p.variants| == 0 ==> !ProductInStock(p)
  {
    forall i | 0 <= i < |p.variants| {
      InStockIffStockQuantityPositive(p.variants[i].stock);
    }
  }

  /** Product.is_available: no release date, or one that is not after today. */
  predicate ProductIsAvailable(p: Product, today: Date) {
    p.availableOn.None? || p.availableOn.value <= today
  }

  // ---- category paths ----------------------------------------------------

  predicate NoSlash(s: string) {
    forall i :: 0 <= i < |s| ==> s[i] != '/'
  }

  /** '/'.join(parts) for a non-empty list of parts. */
  function JoinPath(parts: seq<string>): string
    requires |parts| > 0
  {
    if |parts| == 1 then parts[0] else JoinPath(parts[..|parts| - 1]) + "/" + parts[|parts| - 1]
  }

  /** The position of the last '/' in s, if any. */
  function LastSlash(s: string): (r: Option<nat>)
    ensures r.None? <==> NoSlash(s)
    ensures r.Some? ==> r.value < |s| && s[r.value] == '/' && NoSlash(s[r.value + 1..])
  {
    if |s| == 0 then None
    else if s[|s| - 1] == '/' then Some(|s| - 1)
    else
      match LastSlash(s[..|s| - 1])
      case None => None
      case Some(k) => assert s[k + 1..] == s[..|s| - 1][k + 1..] + [s[|s| - 1]]; Some(k)
  }

  /** Splitting a path at every '/', the inverse of JoinPath. */
  function SplitPath(s: string): (r: seq<string>)
    ensures |r| > 0
    decreases |s|
  {
    match LastSlash(s)
    case None => [s]
    case Some(k) => SplitPath(s[..k]) + [s[k + 1..]]
  }

  /** Category.get_full_path: the slug of a root category, otherwise the
      slugs of the ancestors (root first) and of the category joined by '/'.
      The ancestors are passed in, as the query that fetches them is not
      part of this model. */
  function FullPath(slug: string, hasParent: bool, ancestors: seq<string>): (r: string)
    ensures !hasParent ==> r == slug
    ensures hasParent && NoSlash(slug) && (forall i :: 0 <= i < |ancestors| ==> NoSlash(ancestors[i])) ==>
      SplitPath(r) == ancestors + [slug]
  {
    if !hasParent then slug
    else
      JoinSplitRoundTrip(ancestors + [slug]);
      JoinPath(ancestors + [slug])
  }

  lemma {:induction false} JoinSplitRoundTrip(parts: seq<string>)
    requires |parts| > 0
    ensures (forall i :: 0 <= i < |parts| ==> NoSlash(parts[i])) ==> SplitPath(JoinPath(parts)) == parts
  {
    if |parts| > 1 && forall i :: 0 <= i < |parts| ==> NoSlash(parts[i]) {
      var init := parts[..|parts| - 1];
      var last := parts[|parts| - 1];
      assert forall i :: 0 <= i < |init| ==> init[i] == parts[i];
      SplitAfterJoin(JoinPath(init), last);
      JoinSplitRoundTrip(init);
      assert init + [last] == parts;
    } else if |parts| == 1 {
      assert NoSlash(parts[0]) ==> LastSlash(parts[0]).None?;
    }
  }

  /** Splitting prefix + "/" + last splits off last and then the prefix. */
  lemma SplitAfterJoin(prefix: string, last: string)
    requires NoSlash(last)
    ensures SplitPath(prefix + "/" + last) == SplitPath(prefix) + [last]
  {
    var s := prefix + "/" + last;
    LastSlashAfter(prefix, last);
    assert s[..|prefix|] == prefix;
    assert s[|prefix| + 1..] == last;
  }

  lemma LastSlashAfter(prefix: string, last: string)
    requires NoSlash(last)
    ensures LastSlash(prefix + "/" + last) == Some(|prefix|)
  {
    var s := prefix + "/" + last;
    assert s[|prefix| + 1..] == last;
    LastSlashAt(s, |prefix|);
  }

  /** A '/' with no '/' after it is the last one. */
  lemma {:induction false} LastSlashAt(s: string, p: nat)
    requires p < |s| && s[p] == '/' && NoSlash(s[p + 1..])
    ensures LastSlash(s) == Some(p)
    decreases |s|
  {
    if p < |s| - 1 {
      assert s[p + 1..][|s| - p - 2] == s[|s| - 1];
      var init := s[..|s| - 1];
      var tail := init[p + 1..];
      assert forall j :: 0 <= j < |tail| ==> tail[j] == s[p + 1..][j];
      LastSlashAt(init, p);
    }
  }
}
