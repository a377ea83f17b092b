/** product/filters.py: the sort option of the product list and the table of
    filters a ProductFilter is built with. Which attributes apply (the
    category or collection queries) is decided by the database and passed
    in as two sequences; the filter objects themselves are reduced to the
    fields the module sets on them. */
module Filters {
  import opened Common
  import ProductUtils

  // ---- str.strip('-') ------------------------------------------------------

  /** n dash characters. */
  function Dashes(n: nat): (r: string)
    ensures |r| == n && forall k :: 0 <= k < n ==> r[k] == '-'
  {
    seq(n, _ => '-')
  }

  /** No dash at either end (what strip('-') leaves). */
  predicate Bare(s: string) {
    |s| == 0 || (s[0] != '-' && s[|s| - 1] != '-')
  }

  /** Drops the leading dashes. */
  function TrimLeft(s: string): (r: string)
    ensures |r| <= |s| && s == Dashes(|s| - |r|) + r
    ensures |r| == 0 || r[0] != '-'
    decreases |s|
  {
    if |s| > 0 && s[0] == '-' then
      var r := TrimLeft(s[1..]);
      DashesAdd(1, |s| - 1 - |r|);
      calc {
        s;
        [s[0]] + s[1..];
        Dashes(1) + (Dashes(|s| - 1 - |r|) + r);
        (Dashes(1) + Dashes(|s| - 1 - |r|)) + r;
      }
      r
    else
      assert Dashes(0) + s == s;
      s
  }

  /** Drops the trailing dashes. */
  function TrimRight(s: string): (r: string)
    ensures |r| <= |s| && s == r + Dashes(|s| - |r|)
    ensures |r| == 0 || r[|r| - 1] != '-'
    decreases |s|
  {
    if |s| > 0 && s[|s| - 1] == '-' then
      var r := TrimRight(s[..|s| - 1]);
      DashesAdd(|s| - 1 - |r|, 1);
      calc {
        s;
        s[..|s| - 1] + [s[|s| - 1]];
        (r + Dashes(|s| - 1 - |r|)) + Dashes(1);
        r + (Dashes(|s| - 1 - |r|) + Dashes(1));
      }
      r
    else
      assert s + Dashes(0) == s;
      s
  }

  /** Python's value.strip('-'): the value with the dashes at both ends
      removed. What is left is a middle part of the value, dashes on either
      side of it. */
  function Strip(s: string): (r: string)
    ensures Bare(r)
    ensures exists a: nat, b: nat :: s == Dashes(a) + r + Dashes(b)
  {
    var l := TrimLeft(s);
    var r := TrimRight(l);
    assert r == l[..|r|];
    assert s == Dashes(|s| - |l|) + r + Dashes(|l| - |r|);
    r
  }

  lemma {:induction false} TrimLeftPadded(n: nat, s: string)
    requires |s| == 0 || s[0] != '-'
    ensures TrimLeft(Dashes(n) + s) == s
    decreases n
  {
    if n == 0 {
      assert Dashes(n) + s == s;
    } else {
      assert (Dashes(n) + s)[1..] == Dashes(n - 1) + s;
      TrimLeftPadded(n - 1, s);
    }
  }

  lemma {:induction false} TrimRightPadded(s: string, n: nat)
    requires |s| == 0 || s[|s| - 1] != '-'
    ensures TrimRight(s + Dashes(n)) == s
    decreases n
  {
    if n == 0 {
      assert s + Dashes(n) == s;
    } else {
      var t := s + Dashes(n);
      assert t[..|t| - 1] == s + Dashes(n - 1);
      TrimRightPadded(s, n - 1);
    }
  }

  /** Stripping a bare value padded with dashes gives the value back. */
  lemma StripPadded(a: nat, b: nat, s: string)
    requires Bare(s)
    ensures Strip(Dashes(a) + s + Dashes(b)) == s
  {
    var t := Dashes(a) + s + Dashes(b);
    if |s| == 0 {
      assert t == Dashes(a + b) + s;
      TrimLeftPadded(a + b, s);
    } else {
      assert t == Dashes(a) + (s + Dashes(b));
      TrimLeftPadded(a, s + Dashes(b));
      TrimRightPadded(s, b);
    }
  }

  /** Extra dashes around a value do not change what strip('-') leaves. */
  lemma StripIgnoresPadding(a: nat, b: nat, s: string)
    ensures Strip(Dashes(a) + s + Dashes(b)) == Strip(s)
  {
    var r := Strip(s);
    var a': nat, b': nat :| s == Dashes(a') + r + Dashes(b');
    DashesAdd(a, a');
    DashesAdd(b', b);
    calc {
      Dashes(a) + s + Dashes(b);
      Dashes(a) + (Dashes(a') + r + Dashes(b')) + Dashes(b);
      (Dashes(a) + Dashes(a')) + r + (Dashes(b') + Dashes(b));
      Dashes(a + a') + r + Dashes(b' + b);
    }
    StripPadded(a + a', b' + b, r);
  }

  lemma DashesAdd(m: nat, n: nat)
    ensures Dashes(m) + Dashes(n) == Dashes(m + n)
  {
  }

  lemma StripIdempotent(s: string)
    ensures Strip(Strip(s)) == Strip(s)
  {
    var r := Strip(s);
    assert Dashes(0) + r + Dashes(0) == r;
    StripPadded(0, 0, r);
  }

  // ---- SORT_BY_FIELDS ------------------------------------------------------

  /** A lazily translated message: its context and its untranslated text. */
  datatype Label = Label(context: string, message: string)

  /** The sort options, in the order of SORT_BY_FIELDS. */
  datatype SortField = ByName | ByPrice

  const SortFields: seq<SortField> := [ByName, ByPrice]

  /** The key a sort option is chosen by. */
  function SortKey(f: SortField): string {
    match f
    case ByName => "name"
    case ByPrice => "price"
  }

  /** The label SORT_BY_FIELDS gives a sort option. */
  function SortLabel(f: SortField): Label {
    Label("Product list sorting option", SortKey(f))
  }

  /** SORT_BY_FIELDS looked up by key. */
  function FindSortField(key: string): (r: Option<SortField>)
    ensures r.Some? ==> SortKey(r.value) == key
    ensures r.None? <==> forall f :: SortKey(f) != key
  {
    if key == "name" then Some(ByName)
    else if key == "price" then Some(ByPrice)
    else None
  }

  lemma SortKeysBare(f: SortField)
    ensures Bare(SortKey(f)) && |SortKey(f)| > 0
  {
  }

  // ---- validate_sort_by ------------------------------------------------------

  /** The ValidationError validate_sort_by raises: its message and the value
      it is given as the `value` parameter. */
  datatype SortError = InvalidSortOption(message: Label, value: string)

  const InvalidSortMessage: Label :=
    Label("Validation error for sort_by filter", "%(value)s is not a valid sorting option")

  /** validate_sort_by: None when the value is accepted. */
  function ValidateSortBy(value: string): (r: Option<SortError>)
    ensures r.None? <==> exists f :: SortKey(f) == Strip(value)
    ensures r.Some? ==> r.value == InvalidSortOption(InvalidSortMessage, value)
  {
    if FindSortField(Strip(value)).Some? then None
    else Some(InvalidSortOption(InvalidSortMessage, value))
  }

  /** The accepted values are exactly a sort key with any number of dashes
      in front and behind. */
  lemma AcceptedSortValues(value: string)
    ensures ValidateSortBy(value).None? <==>
      exists a: nat, b: nat, f :: value == Dashes(a) + SortKey(f) + Dashes(b)
  {
    if ValidateSortBy(value).None? {
      var f :| SortKey(f) == Strip(value);
      var a: nat, b: nat :| value == Dashes(a) + Strip(value) + Dashes(b);
      assert value == Dashes(a) + SortKey(f) + Dashes(b);
    }
    if exists a: nat, b: nat, f :: value == Dashes(a) + SortKey(f) + Dashes(b) {
      var a: nat, b: nat, f :| value == Dashes(a) + SortKey(f) + Dashes(b);
      SortKeysBare(f);
      StripPadded(a, b, SortKey(f));
    }
  }

  /** Ascending and descending spellings (and any other dash padding) are
      accepted or refused together. */
  lemma DirectionIgnoredByValidation(a: nat, b: nat, value: string)
    ensures ValidateSortBy(Dashes(a) + value + Dashes(b)).None? <==> ValidateSortBy(value).None?
  {
    StripIgnoresPadding(a, b, value);
  }

  // ---- get_now_sorted_by -----------------------------------------------------

  /** get_now_sorted_by, given the cleaned sort_by value (empty when none was
      chosen). A first key that is not in SORT_BY_FIELDS raises KeyError,
      carrying the stripped key. */
  function GetNowSortedBy(chosen: seq<string>): (r: Result<Label, string>)
    ensures |chosen| == 0 ==> r == Success(SortLabel(ByName))
    ensures |chosen| > 0 ==> (r.Success? <==> ValidateSortBy(chosen[0]).None?)
    ensures |chosen| > 0 && r.Success? ==>
      exists f :: SortKey(f) == Strip(chosen[0]) && r.value == SortLabel(f)
    ensures r.Failure? ==> |chosen| > 0 && r.error == Strip(chosen[0])
  {
    if |chosen| == 0 then Success(SortLabel(ByName))
    else
      match FindSortField(Strip(chosen[0]))
      case Some(f) => Success(SortLabel(f))
      case None => Failure(Strip(chosen[0]))
  }

  /** The label of a chosen key does not depend on the dashes around it, so
      `price` and `-price` are shown alike. */
  lemma SortLabelOfKey(f: SortField, a: nat, b: nat, rest: seq<string>)
    ensures GetNowSortedBy([Dashes(a) + SortKey(f) + Dashes(b)] + rest) == Success(SortLabel(f))
  {
    SortKeysBare(f);
    StripPadded(a, b, SortKey(f));
  }

  /** Padding the first choice with dashes never changes the answer, whether
      it is a label or a KeyError. */
  lemma SortedByIgnoresDirection(a: nat, b: nat, key: string, rest: seq<string>)
    ensures GetNowSortedBy([Dashes(a) + key + Dashes(b)] + rest) == GetNowSortedBy([key] + rest)
  {
    StripIgnoresPadding(a, b, key);
  }

  // ---- the filter table -------------------------------------------------------

  /** The filters of a ProductFilter, reduced to what the module sets. */
  datatype Filter =
    | OrderingFilter(title: Label, fields: seq<SortField>)
    | PriceRangeFilter(field: string)
    | ChoiceFilter(field: string, caption: string, choices: seq<(int, string)>)

  /** One item of the filters dictionary. */
  datatype Entry = Entry(key: string, filter: Filter)

  predicate UniqueKeys(es: seq<Entry>) {
    forall i, j :: 0 <= i < j < |es| ==> es[i].key != es[j].key
  }

  predicate HasKey(es: seq<Entry>, k: string) {
    exists i :: 0 <= i < |es| && es[i].key == k
  }

  /** filters[k], None when k is not a key. */
  function Find(es: seq<Entry>, k: string): (r: Option<Filter>)
    ensures r.None? <==> !HasKey(es, k)
    ensures r.Some? ==> Entry(k, r.value) in es
    decreases |es|
  {
    if |es| == 0 then None
    else if es[0].key == k then Some(es[0].filter)
    else
      var r := Find(es[1..], k);
      assert HasKey(es[1..], k) ==> HasKey(es, k);
      assert HasKey(es, k) ==> HasKey(es[1..], k) by {
        if HasKey(es, k) {
          var i :| 0 <= i < |es| && es[i].key == k;
          assert es[1..][i - 1].key == k;
        }
      }
      r
  }

  /** In a dictionary every item is what looking its key up returns. */
  lemma FindUnique(es: seq<Entry>, e: Entry)
    requires UniqueKeys(es) && e in es
    ensures Find(es, e.key) == Some(e.filter)
  {
    var v := Find(es, e.key).value;
    var i :| 0 <= i < |es| && es[i] == e;
    var j :| 0 <= j < |es| && es[j] == Entry(e.key, v);
    assert i == j;
  }

  /** filters[k] = f: the item for k is replaced where it stands, or
      appended when k is new. */
  function Put(es: seq<Entry>, k: string, f: Filter): (r: seq<Entry>)
    ensures |r| == if HasKey(es, k) then |es| else |es| + 1
    ensures forall k' :: Find(r, k') == if k' == k then Some(f) else Find(es, k')
    decreases |es|
  {
    if |es| == 0 then [Entry(k, f)]
    else if es[0].key == k then
      assert ([Entry(k, f)] + es[1..])[1..] == es[1..];
      [Entry(k, f)] + es[1..]
    else
      var t := Put(es[1..], k, f);
      assert ([es[0]] + t)[1..] == t;
      assert HasKey(es, k) <==> HasKey(es[1..], k) by {
        if HasKey(es, k) {
          var i :| 0 <= i < |es| && es[i].key == k;
          assert es[1..][i - 1].key == k;
        }
        if HasKey(es[1..], k) {
          var i :| 0 <= i < |es[1..]| && es[1..][i].key == k;
          assert es[i + 1].key == k;
        }
      }
      [es[0]] + t
  }

  /** A dictionary stays one: Put never duplicates a key. */
  lemma {:induction false} PutUnique(es: seq<Entry>, k: string, f: Filter)
    requires UniqueKeys(es)
    ensures UniqueKeys(Put(es, k, f))
    decreases |es|
  {
    if |es| > 0 {
      var rest := es[1..];
      TailUnique(es);
      if es[0].key == k {
        var r := Put(es, k, f);
        assert r == [Entry(k, f)] + rest;
        forall i, j | 0 <= i < j < |r|
          ensures r[i].key != r[j].key
        {
          assert r[j] == es[j];
          if i > 0 {
            assert r[i] == es[i];
          }
        }
      } else {
        PutUnique(rest, k, f);
        var t := Put(rest, k, f);
        forall m | 0 <= m < |rest|
          ensures rest[m].key != es[0].key
        {
          assert rest[m] == es[m + 1];
        }
        assert Find(t, es[0].key).None?;
        ConsUnique(es[0], t);
      }
    }
  }

  lemma TailUnique(es: seq<Entry>)
    requires UniqueKeys(es) && |es| > 0
    ensures UniqueKeys(es[1..])
  {
    var rest := es[1..];
    forall a, b | 0 <= a < b < |rest|
      ensures rest[a].key != rest[b].key
    {
      assert rest[a] == es[a + 1] && rest[b] == es[b + 1];
    }
  }

  lemma ConsUnique(x: Entry, t: seq<Entry>)
    requires UniqueKeys(t) && !HasKey(t, x.key)
    ensures UniqueKeys([x] + t)
  {
    var r := [x] + t;
    forall i, j | 0 <= i < j < |r|
      ensures r[i].key != r[j].key
    {
      assert r[j] == t[j - 1];
      if i > 0 {
        assert r[i] == t[i - 1];
      }
    }
  }

  /** filters.update(d): the items of d put in order. */
  function Update(es: seq<Entry>, d: seq<Entry>): (r: seq<Entry>)
    ensures UniqueKeys(es) ==> UniqueKeys(r)
    decreases |d|
  {
    if |d| == 0 then es
    else if UniqueKeys(es) then
      PutUnique(es, d[0].key, d[0].filter);
      Update(Put(es, d[0].key, d[0].filter), d[1..])
    else
      Update(Put(es, d[0].key, d[0].filter), d[1..])
  }

  /** After update, a key of d has d's filter and every other key keeps its
      own. */
  lemma {:induction false} UpdateFind(es: seq<Entry>, d: seq<Entry>, k: string)
    requires UniqueKeys(d)
    ensures Find(Update(es, d), k) == if HasKey(d, k) then Find(d, k) else Find(es, k)
    decreases |d|
  {
    if |d| > 0 {
      var rest := d[1..];
      TailUnique(d);
      UpdateFind(Put(es, d[0].key, d[0].filter), rest, k);
      assert HasKey(d, k) <==> d[0].key == k || HasKey(rest, k) by {
        if HasKey(d, k) {
          var i :| 0 <= i < |d| && d[i].key == k;
          if i > 0 { assert rest[i - 1].key == k; }
        }
        if HasKey(rest, k) {
          var i :| 0 <= i < |rest| && rest[i].key == k;
          assert d[i + 1].key == k;
        }
      }
      if d[0].key == k {
        forall i | 0 <= i < |rest|
          ensures rest[i].key != k
        {
          assert rest[i] == d[i + 1];
        }
      }
    }
  }

  /** The choices of an attribute filter: each value's pk and name. */
  function Choices(values: seq<ProductUtils.Choice>): (r: seq<(int, string)>)
    ensures |r| == |values|
  {
    seq(|values|, i requires 0 <= i < |values| => (values[i].pk, values[i].name))
  }

  const ProductAttributePrefix: string := "attributes__"
  const VariantAttributePrefix: string := "variants__attributes__"

  /** The MultipleChoiceFilter built for one attribute: it filters on the
      attribute's pk behind the given lookup prefix and is labelled with the
      attribute's name. */
  function AttributeFilter(a: ProductUtils.Attribute, prefix: string): Filter {
    ChoiceFilter(prefix + IntToString(a.pk), a.name, Choices(a.values))
  }

  predicate HasSlug(attrs: seq<ProductUtils.Attribute>, k: string) {
    exists i :: 0 <= i < |attrs| && attrs[i].slug == k
  }

  /** attrs[i] is the last attribute with slug k. */
  predicate LastWithSlug(attrs: seq<ProductUtils.Attribute>, i: int, k: string) {
    0 <= i < |attrs| && attrs[i].slug == k && forall j :: i < j < |attrs| ==> attrs[j].slug != k
  }

  /** es holds, under key k, the filter built from the last attribute with
      slug k. */
  predicate HoldsLastFilter(es: seq<Entry>, attrs: seq<ProductUtils.Attribute>, prefix: string, k: string) {
    exists i :: 0 <= i < |attrs| && LastWithSlug(attrs, i, k) && Find(es, k) == Some(AttributeFilter(attrs[i], prefix))
  }

  /** _get_product_attributes_filters and its variant twin: one filter per
      attribute, keyed by slug, later attributes overwriting earlier ones. */
  function AttributeFilters(attrs: seq<ProductUtils.Attribute>, prefix: string): (r: seq<Entry>)
    ensures UniqueKeys(r)
    decreases |attrs|
  {
    if |attrs| == 0 then []
    else
      var init := AttributeFilters(attrs[..|attrs| - 1], prefix);
      var last := attrs[|attrs| - 1];
      PutUnique(init, last.slug, AttributeFilter(last, prefix));
      Put(init, last.slug, AttributeFilter(last, prefix))
  }

  /** The attribute dictionary has a key for every slug, holding the filter
      of the last attribute with that slug. */
  lemma {:induction false} AttributeFiltersFind(attrs: seq<ProductUtils.Attribute>, prefix: string, k: string)
    ensures HasKey(AttributeFilters(attrs, prefix), k) <==> HasSlug(attrs, k)
    ensures HasSlug(attrs, k) ==> HoldsLastFilter(AttributeFilters(attrs, prefix), attrs, prefix, k)
    decreases |attrs|
  {
    if |attrs| > 0 {
      var n := |attrs| - 1;
      if attrs[n].slug == k {
        LastFilterOfLast(attrs, prefix, k);
      } else {
        AttributeFiltersFind(attrs[..n], prefix, k);
        AttributeFiltersStep(attrs, prefix, k);
        SlugsOfInit(attrs, k);
        if HasSlug(attrs, k) {
          LastFilterOfInit(attrs, prefix, k);
        }
      }
    }
  }

  /** The last attribute's own slug maps to its filter. */
  lemma LastFilterOfLast(attrs: seq<ProductUtils.Attribute>, prefix: string, k: string)
    requires |attrs| > 0 && attrs[|attrs| - 1].slug == k
    ensures HasKey(AttributeFilters(attrs, prefix), k) && HasSlug(attrs, k)
    ensures HoldsLastFilter(AttributeFilters(attrs, prefix), attrs, prefix, k)
  {
    var n := |attrs| - 1;
    AttributeFiltersStep(attrs, prefix, k);
    assert LastWithSlug(attrs, n, k);
  }

  /** The filter found for k before the last attribute stays when that
      attribute has another slug. */
  lemma LastFilterOfInit(attrs: seq<ProductUtils.Attribute>, prefix: string, k: string)
    requires |attrs| > 0 && attrs[|attrs| - 1].slug != k
    requires HoldsLastFilter(AttributeFilters(attrs[..|attrs| - 1], prefix), attrs[..|attrs| - 1], prefix, k)
    ensures HoldsLastFilter(AttributeFilters(attrs, prefix), attrs, prefix, k)
  {
    var init := attrs[..|attrs| - 1];
    AttributeFiltersStep(attrs, prefix, k);
    SlugsOfInit(attrs, k);
    var i :| 0 <= i < |init| && LastWithSlug(init, i, k)
      && Find(AttributeFilters(init, prefix), k) == Some(AttributeFilter(init[i], prefix));
    assert LastWithSlug(attrs, i, k) && attrs[i] == init[i];
  }

  /** What the last attribute does to the lookup of k. */
  lemma AttributeFiltersStep(attrs: seq<ProductUtils.Attribute>, prefix: string, k: string)
    requires |attrs| > 0
    ensures var last := attrs[|attrs| - 1];
      Find(AttributeFilters(attrs, prefix), k) ==
        if last.slug == k then Some(AttributeFilter(last, prefix))
        else Find(AttributeFilters(attrs[..|attrs| - 1], prefix), k)
  {
  }

  /** An attribute of the prefix that is last with its slug there stays
      last when the final attribute has another slug. */
  lemma SlugsOfInit(attrs: seq<ProductUtils.Attribute>, k: string)
    requires |attrs| > 0 && attrs[|attrs| - 1].slug != k
    ensures HasSlug(attrs, k) <==> HasSlug(attrs[..|attrs| - 1], k)
    ensures forall i :: LastWithSlug(attrs[..|attrs| - 1], i, k) ==> LastWithSlug(attrs, i, k)
  {
    var init := attrs[..|attrs| - 1];
    if HasSlug(attrs, k) {
      var i :| 0 <= i < |attrs| && attrs[i].slug == k;
      assert init[i].slug == k;
    }
    if HasSlug(init, k) {
      var i :| 0 <= i < |init| && init[i].slug == k;
      assert attrs[i].slug == k;
    }
  }

  /** The FilterSet's own filters: the price range from Meta.fields and the
      declared sort_by ordering. */
  const BaseFilters: seq<Entry> := [
    Entry("price", PriceRangeFilter("price")),
    Entry("sort_by", OrderingFilter(Label("Product list sorting form", "Sort by"), SortFields))]

  lemma BaseFiltersUnique()
    ensures UniqueKeys(BaseFilters)
    ensures forall k :: HasKey(BaseFilters, k) <==> k == "price" || k == "sort_by"
  {
    assert BaseFilters[0].key == "price" && BaseFilters[1].key == "sort_by";
  }

  /** The filters dictionary after the two updates, before it is sorted. */
  function MergedFilters(productAttrs: seq<ProductUtils.Attribute>,
                         variantAttrs: seq<ProductUtils.Attribute>): (r: seq<Entry>)
    ensures UniqueKeys(r)
  {
    BaseFiltersUnique();
    Update(Update(BaseFilters, AttributeFilters(productAttrs, ProductAttributePrefix)),
           AttributeFilters(variantAttrs, VariantAttributePrefix))
  }

  // ---- sorted(self.filters.items()) -------------------------------------------

  /** Python's string order: code point by code point, a proper prefix
      first. */
  predicate Less(a: string, b: string)
    decreases |a|
  {
    |b| > 0 && (|a| == 0 || a[0] < b[0] || (a[0] == b[0] && Less(a[1..], b[1..])))
  }

  lemma {:induction false} LessIrreflexive(a: string)
    ensures !Less(a, a)
    decreases |a|
  {
    if |a| > 0 {
      LessIrreflexive(a[1..]);
    }
  }

  lemma {:induction false} LessTransitive(a: string, b: string, c: string)
    requires Less(a, b) && Less(b, c)
    ensures Less(a, c)
    decreases |a|
  {
    if |a| > 0 && a[0] == b[0] && b[0] == c[0] {
      LessTransitive(a[1..], b[1..], c[1..]);
    }
  }

  lemma {:induction false} LessTotal(a: string, b: string)
    requires a != b
    ensures Less(a, b) || Less(b, a)
    decreases |a|
  {
    if |a| > 0 && |b| > 0 && a[0] == b[0] {
      assert a == [a[0]] + a[1..] && b == [b[0]] + b[1..];
      LessTotal(a[1..], b[1..]);
    }
  }

  predicate StrictlySorted(es: seq<Entry>) {
    forall i, j :: 0 <= i < j < |es| ==> Less(es[i].key, es[j].key)
  }

  lemma SortedUnique(es: seq<Entry>)
    requires StrictlySorted(es)
    ensures UniqueKeys(es)
  {
    forall i, j | 0 <= i < j < |es|
      ensures es[i].key != es[j].key
    {
      LessIrreflexive(es[i].key);
    }
  }

  /** Inserts e in front of the first item with a larger key. */
  function InsertSorted(e: Entry, es: seq<Entry>): (r: seq<Entry>)
    ensures multiset(r) == multiset(es) + multiset{e}
    decreases |es|
  {
    if |es| == 0 then [e]
    else if Less(e.key, es[0].key) then [e] + es
    else
      assert es == [es[0]] + es[1..];
      [es[0]] + InsertSorted(e, es[1..])
  }

  lemma {:induction false} InsertSortedSorted(e: Entry, es: seq<Entry>)
    requires StrictlySorted(es) && !HasKey(es, e.key)
    ensures StrictlySorted(InsertSorted(e, es))
    decreases |es|
  {
    if |es| > 0 {
      if Less(e.key, es[0].key) {
        forall j | 0 <= j < |es|
          ensures Less(e.key, es[j].key)
        {
          if j > 0 {
            LessTransitive(e.key, es[0].key, es[j].key);
          }
        }
        ConsSorted(e, es);
      } else {
        var rest := es[1..];
        assert es[0].key != e.key;
        LessTotal(es[0].key, e.key);
        forall m | 0 <= m < |rest|
          ensures rest[m].key != e.key
        {
          assert rest[m] == es[m + 1];
        }
        InsertSortedSorted(e, rest);
        var t := InsertSorted(e, rest);
        InsertedAbove(es[0], e, rest);
        ConsSorted(es[0], t);
      }
    }
  }

  /** A sorted sequence stays sorted below a key smaller than all of its own. */
  lemma ConsSorted(x: Entry, t: seq<Entry>)
    requires StrictlySorted(t)
    requires forall j :: 0 <= j < |t| ==> Less(x.key, t[j].key)
    ensures StrictlySorted([x] + t)
  {
    var r := [x] + t;
    forall i, j | 0 <= i < j < |r|
      ensures Less(r[i].key, r[j].key)
    {
      assert r[j] == t[j - 1];
      if i > 0 {
        assert r[i] == t[i - 1];
      }
    }
  }

  /** Every item of InsertSorted(e, rest) is above x when e and all of rest
      are. */
  lemma InsertedAbove(x: Entry, e: Entry, rest: seq<Entry>)
    requires Less(x.key, e.key)
    requires forall m :: 0 <= m < |rest| ==> Less(x.key, rest[m].key)
    ensures forall j :: 0 <= j < |InsertSorted(e, rest)| ==> Less(x.key, InsertSorted(e, rest)[j].key)
  {
    var t := InsertSorted(e, rest);
    forall j | 0 <= j < |t|
      ensures Less(x.key, t[j].key)
    {
      assert t[j] in multiset(t);
      if t[j] != e {
        assert t[j] in multiset(rest);
        var m :| 0 <= m < |rest| && rest[m] == t[j];
      }
    }
  }

  /** Insertion sort of the items by key. */
  function SortEntries(es: seq<Entry>): (r: seq<Entry>)
    ensures multiset(r) == multiset(es)
    decreases |es|
  {
    if |es| == 0 then []
    else
      assert es == [es[0]] + es[1..];
      InsertSorted(es[0], SortEntries(es[1..]))
  }

  lemma {:induction false} SortEntriesSorted(es: seq<Entry>)
    requires UniqueKeys(es)
    ensures StrictlySorted(SortEntries(es))
    decreases |es|
  {
    if |es| > 0 {
      var rest := es[1..];
      TailUnique(es);
      SortEntriesSorted(rest);
      var t := SortEntries(rest);
      forall m | 0 <= m < |t|
        ensures t[m].key != es[0].key
      {
        assert t[m] in multiset(rest);
        var n :| 0 <= n < |rest| && rest[n] == t[m];
        assert rest[n] == es[n + 1];
      }
      InsertSortedSorted(es[0], t);
    }
  }

  /** Sorting a dictionary's items changes no lookup. */
  lemma SortKeepsFind(es: seq<Entry>, k: string)
    requires UniqueKeys(es)
    ensures Find(SortEntries(es), k) == Find(es, k)
  {
    var r := SortEntries(es);
    SortEntriesSorted(es);
    SortedUnique(r);
    if Find(es, k).Some? {
      var e := Entry(k, Find(es, k).value);
      assert e in multiset(r);
      FindUnique(r, e);
    } else if Find(r, k).Some? {
      var e := Entry(k, Find(r, k).value);
      assert e in multiset(es);
      assert HasKey(es, k);
    }
  }

  /** ProductFilter's filters: the base filters, updated with the product
      attribute filters and then the variant attribute filters, ordered by
      key. */
  function FilterTable(productAttrs: seq<ProductUtils.Attribute>,
                       variantAttrs: seq<ProductUtils.Attribute>): (r: seq<Entry>)
    ensures StrictlySorted(r) && UniqueKeys(r)
    ensures multiset(r) == multiset(MergedFilters(productAttrs, variantAttrs))
  {
    var merged := MergedFilters(productAttrs, variantAttrs);
    SortEntriesSorted(merged);
    SortedUnique(SortEntries(merged));
    SortEntries(merged)
  }

  /** Which filter each key of the table holds: a variant attribute's filter
      wins over a product attribute's with the same slug, which wins over the
      base filter of that name. */
  lemma FilterTableFind(productAttrs: seq<ProductUtils.Attribute>,
                        variantAttrs: seq<ProductUtils.Attribute>, k: string)
    ensures HasSlug(variantAttrs, k) ==>
      HoldsLastFilter(FilterTable(productAttrs, variantAttrs), variantAttrs, VariantAttributePrefix, k)
    ensures !HasSlug(variantAttrs, k) && HasSlug(productAttrs, k) ==>
      HoldsLastFilter(FilterTable(productAttrs, variantAttrs), productAttrs, ProductAttributePrefix, k)
    ensures !HasSlug(variantAttrs, k) && !HasSlug(productAttrs, k) ==>
      Find(FilterTable(productAttrs, variantAttrs), k) == Find(BaseFilters, k)
  {
    var pf := AttributeFilters(productAttrs, ProductAttributePrefix);
    var vf := AttributeFilters(variantAttrs, VariantAttributePrefix);
    var merged := MergedFilters(productAttrs, variantAttrs);
    SortKeepsFind(merged, k);
    UpdateFind(Update(BaseFilters, pf), vf, k);
    UpdateFind(BaseFilters, pf, k);
    AttributeFiltersFind(productAttrs, ProductAttributePrefix, k);
    AttributeFiltersFind(variantAttrs, VariantAttributePrefix, k);
  }

  /** The table has exactly one entry for price, one for sort_by and one
      for each attribute slug, and no other. */
  lemma FilterTableKeys(productAttrs: seq<ProductUtils.Attribute>,
                        variantAttrs: seq<ProductUtils.Attribute>, k: string)
    ensures HasKey(FilterTable(productAttrs, variantAttrs), k) <==>
      k == "price" || k == "sort_by" || HasSlug(productAttrs, k) || HasSlug(variantAttrs, k)
  {
    FilterTableFind(productAttrs, variantAttrs, k);
    BaseFiltersUnique();
  }
}
