/** like/utils.py, widget_context: the labels of the like button. The like
    count and whether the user has liked the object come from queries and
    are passed in; so are the content type id and object pk that the
    toggle URL is reversed from. */
module Likes {
  import opened Common

  /** The arguments the like_toggle URL is reversed with. */
  datatype ToggleRoute = ToggleRoute(contentTypeId: int, objectId: int)

  /** The context widget_context builds, minus the object and the request,
      which it passes through unchanged. The keys an unauthenticated user
      does not get (like_url, liked) are None. */
  datatype Widget = Widget(
    canLike: bool,
    likeCount: nat,
    countsText: string,
    likeText: string,
    likeClass: string,
    likeUrl: Option<ToggleRoute>,
    liked: Option<bool>)

  function WidgetContext(authenticated: bool, likeCount: nat, hasLiked: bool,
                         contentTypeId: int, objectId: int): (r: Widget)
    ensures r.likeCount == likeCount
    ensures r.countsText == "Like" <==> likeCount == 1
    ensures r.countsText == "Likes" <==> likeCount != 1
    ensures r.canLike == authenticated
    ensures r.liked.Some? <==> authenticated
    ensures r.liked.Some? ==> r.liked.value == hasLiked
    ensures r.likeUrl.Some? <==> authenticated
    ensures r.likeUrl.Some? ==> r.likeUrl.value == ToggleRoute(contentTypeId, objectId)
    ensures r.likeText == "Unlike" <==> authenticated && hasLiked
    ensures r.likeText == "Like" <==> !(authenticated && hasLiked)
    ensures r.likeClass == "unlike" <==> authenticated && hasLiked
    ensures r.likeClass == "like" <==> authenticated && !hasLiked
    ensures r.likeClass == "no_like" <==> !authenticated
  {
    var countsText := if likeCount == 1 then "Like" else "Likes";
    if authenticated then
      var likeText := if hasLiked then "Unlike" else "Like";
      var likeClass := if hasLiked then "unlike" else "like";
      Widget(true, likeCount, countsText, likeText, likeClass,
             Some(ToggleRoute(contentTypeId, objectId)), Some(hasLiked))
    else
      Widget(false, likeCount, countsText, "Like", "no_like", None, None)
  }

  /** The three button states are told apart by the class alone: the class
      of one context never equals the class of a context in another state. */
  lemma ClassDeterminesState(a1: bool, n1: nat, l1: bool, a2: bool, n2: nat, l2: bool, ct: int, pk: int)
    requires WidgetContext(a1, n1, l1, ct, pk).likeClass == WidgetContext(a2, n2, l2, ct, pk).likeClass
    ensures a1 == a2
    ensures a1 ==> l1 == l2
  {
  }

  /** Liking toggles the button of an authenticated user between "Like" and
      "Unlike", and leaves the other labels alone; the count text only
      depends on the count. */
  lemma ToggleFlipsButton(n: nat, ct: int, pk: int)
    ensures var before := WidgetContext(true, n, false, ct, pk);
      var after := WidgetContext(true, n + 1, true, ct, pk);
      && before.likeText == "Like" && after.likeText == "Unlike"
      && before.likeClass == "like" && after.likeClass == "unlike"
      && before.canLike && after.canLike
      && (n == 0 ==> before.countsText == "Likes" && after.countsText == "Like")
  {
  }
}
