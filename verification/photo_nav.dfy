/** picsure/src/pages/AlbumDetail.jsx: the next and previous buttons of the
    photo viewer, which step through the album's photos cyclically. */
module PhotoNav {
  import opened Wrappers

  /** JavaScript's `%`: the remainder takes the sign of the dividend. */
  function JsRem(a: int, n: int): (r: int)
    requires n > 0
    ensures a >= 0 ==> r == a % n
    ensures -n < r < n
    ensures a < 0 ==> r <= 0
  {
    if a >= 0 then a % n else -((-a) % n)
  }

  /** `photos.findIndex(photo => photo.id === id)`: the first position of
      the id, or -1. */
  function FindIndex(ids: seq<int>, id: int): (i: int)
    ensures -1 <= i < |ids|
    ensures i == -1 <==> id !in ids
    ensures i >= 0 ==> ids[i] == id && forall j | 0 <= j < i :: ids[j] != id
  {
    if |ids| == 0 then -1
    else if ids[0] == id then 0
    else
      var rest := FindIndex(ids[1..], id);
      if rest == -1 then -1 else rest + 1
  }

  /** The index `handleNextPhoto` selects; an empty album gives NaN, which
      selects nothing. */
  function Next(ids: seq<int>, selected: int): (r: Option<int>)
  {
    if |ids| == 0 then None else Some(JsRem(FindIndex(ids, selected) + 1, |ids|))
  }

  /** The index `handlePrevPhoto` selects. */
  function Prev(ids: seq<int>, selected: int): (r: Option<int>)
  {
    if |ids| == 0 then None else Some(JsRem(FindIndex(ids, selected) - 1 + |ids|, |ids|))
  }

  predicate Distinct(ids: seq<int>) {
    forall i, j | 0 <= i < j < |ids| :: ids[i] != ids[j]
  }

  /** Both buttons select an index of the album, whether or not the
      current photo is in it. */
  lemma InRange(ids: seq<int>, selected: int)
    requires |ids| > 0
    ensures Next(ids, selected).Some? && 0 <= Next(ids, selected).value < |ids|
    ensures Prev(ids, selected).Some? && 0 <= Prev(ids, selected).value < |ids|
  {
  }

  /** The remainder of a number below twice the divisor. */
  lemma ModBelowTwice(a: int, n: int)
    requires 0 <= a < 2 * n
    ensures a % n == if a < n then a else a - n
  {
    if a < n {
      assert a == n * 0 + a;
    } else {
      assert a == n * 1 + (a - n);
    }
  }

  /** With the photo at position `i` selected, next is `(i+1) mod n` and
      previous is `(i-1) mod n`: the last wraps to the first and the first
      to the last. */
  lemma Cyclic(ids: seq<int>, i: int)
    requires Distinct(ids) && 0 <= i < |ids|
    ensures Next(ids, ids[i]) == Some(if i == |ids| - 1 then 0 else i + 1)
    ensures Prev(ids, ids[i]) == Some(if i == 0 then |ids| - 1 else i - 1)
  {
    assert FindIndex(ids, ids[i]) == i;
    ModBelowTwice(i + 1, |ids|);
    ModBelowTwice(i - 1 + |ids|, |ids|);
  }

  /** Previous after next, and next after previous, return to the photo
      that was selected. */
  lemma NextPrevInverse(ids: seq<int>, i: int)
    requires Distinct(ids) && 0 <= i < |ids|
    ensures Prev(ids, ids[Next(ids, ids[i]).value]) == Some(i)
    ensures Next(ids, ids[Prev(ids, ids[i]).value]) == Some(i)
  {
    Cyclic(ids, i);
    var n := if i == |ids| - 1 then 0 else i + 1;
    var p := if i == 0 then |ids| - 1 else i - 1;
    Cyclic(ids, n);
    Cyclic(ids, p);
  }

  /** A selected photo that is not in the list counts as position -1: next
      selects the first photo, previous the one before the last (the only
      photo when there is one). */
  lemma AbsentSelection(ids: seq<int>, selected: int)
    requires |ids| > 0 && selected !in ids
    ensures Next(ids, selected) == Some(0)
    ensures Prev(ids, selected) == Some(if |ids| == 1 then 0 else |ids| - 2)
  {
  }
}
