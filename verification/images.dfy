/** Ordering of a product's images (ProductImage.save and .delete): a new
    image goes after the last one, and deleting an image closes the gap.
    A product's images are represented by their order numbers, in the
    order the query returns them. */
module Images {
  import opened Common

  /** The order a new image gets: 0 for the first image, otherwise one more
      than the largest order in use. */
  function NextOrder(orders: seq<nat>): (r: nat)
    ensures forall i :: 0 <= i < |orders| ==> orders[i] < r
    ensures |orders| == 0 ==> r == 0
    ensures |orders| > 0 ==> exists i :: 0 <= i < |orders| && orders[i] + 1 == r
  {
    if |orders| == 0 then 0
    else
      var rest := NextOrder(orders[1..]);
      if orders[0] + 1 >= rest then orders[0] + 1
      else
        assert forall j :: 0 <= j < |orders| - 1 ==> orders[1..][j] == orders[j + 1];
        rest
  }

  /** Saving a new image: an order it already carries is kept, otherwise it
      gets NextOrder; the image joins the product's images. */
  function SaveNewImage(orders: seq<nat>, order: Option<nat>): (r: seq<nat>)
    ensures |r| == |orders| + 1 && r[..|orders|] == orders
    ensures order.Some? ==> r[|orders|] == order.value
    ensures order.None? ==> forall i :: 0 <= i < |orders| ==> orders[i] < r[|orders|]
  {
    match order
    case Some(o) => orders + [o]
    case None => orders + [NextOrder(orders)]
  }

  /** The new order of an image after the image with order `deleted` goes. */
  function Shifted(o: nat, deleted: nat): nat {
    if o > deleted then o - 1 else o
  }

  /** ProductImage.delete: the image at position i goes, and every image
      whose order is above the deleted one moves down by one. */
  function DeleteImage(orders: seq<nat>, i: nat): (r: seq<nat>)
    requires i < |orders|
    ensures |r| == |orders| - 1
    ensures forall j :: 0 <= j < i ==> r[j] == Shifted(orders[j], orders[i])
    ensures forall j :: i <= j < |r| ==> r[j] == Shifted(orders[j + 1], orders[i])
  {
    var rest := orders[..i] + orders[i + 1..];
    seq(|rest|, j requires 0 <= j < |rest| => Shifted(rest[j], orders[i]))
  }

  predicate Distinct(orders: seq<nat>) {
    forall i, j :: 0 <= i < j < |orders| ==> orders[i] != orders[j]
  }

  /** The orders are exactly 0, 1, ..., n-1 in some arrangement. */
  predicate Contiguous(orders: seq<nat>) {
    Distinct(orders) && forall i :: 0 <= i < |orders| ==> orders[i] < |orders|
  }

  /** Distinct numbers below m are at most m many. */
  lemma {:induction false} DistinctBelowBound(s: seq<nat>, m: nat)
    requires Distinct(s)
    requires forall i :: 0 <= i < |s| ==> s[i] < m
    ensures |s| <= m
    decreases |s| + m
  {
    if |s| > 0 {
      assert 0 <= s[0] < m;
      if k :| 0 <= k < |s| && s[k] == m - 1 {
        var t := s[..k] + s[k + 1..];
        assert forall i :: 0 <= i < |t| ==> t[i] == (if i < k then s[i] else s[i + 1]);
        DistinctBelowBound(t, m - 1);
      } else {
        DistinctBelowBound(s, m - 1);
      }
    }
  }

  /** With contiguous orders the next order is the number of images. */
  lemma NextOrderOfContiguous(orders: seq<nat>)
    requires Contiguous(orders)
    ensures NextOrder(orders) == |orders|
  {
    var n := |orders|;
    if n > 0 {
      if forall i :: 0 <= i < n ==> orders[i] < n - 1 {
        DistinctBelowBound(orders, n - 1);
        assert false;
      }
    }
  }

  /** Appending an image to contiguous orders keeps them contiguous. */
  lemma SaveKeepsContiguous(orders: seq<nat>)
    requires Contiguous(orders)
    ensures Contiguous(SaveNewImage(orders, None))
  {
    NextOrderOfContiguous(orders);
  }

  /** Deleting an image from contiguous orders keeps them contiguous. */
  lemma DeleteKeepsContiguous(orders: seq<nat>, i: nat)
    requires i < |orders| && Contiguous(orders)
    ensures Contiguous(DeleteImage(orders, i))
  {
    var r := DeleteImage(orders, i);
    forall a, b | 0 <= a < b < |r| ensures r[a] != r[b] {
      var a' := if a < i then a else a + 1;
      var b' := if b < i then b else b + 1;
      assert orders[a'] != orders[b'] && orders[a'] != orders[i] && orders[b'] != orders[i];
    }
  }
}
