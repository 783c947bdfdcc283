/** The "null or a value" results of the request's lookups. */
module Options {

  /** `None` stands for the `null` a lookup returns when nothing matches. */
  datatype Option<+T> = None | Some(value: T)

  /** Index of the first element of `s` satisfying `p`, or `None` when no
      element does: the shape of every linear search over a list that returns
      at its first hit. */
  function FirstIndex<T>(s: seq<T>, p: T -> bool): (r: Option<nat>)
    ensures r.None? <==> forall i :: 0 <= i < |s| ==> !p(s[i])
    ensures r.Some? ==> r.value < |s| && p(s[r.value])
    ensures r.Some? ==> forall j :: 0 <= j < r.value ==> !p(s[j])
  {
    if |s| == 0 then None
    else if p(s[0]) then Some(0)
    else match FirstIndex(s[1..], p)
      case None => None
      case Some(i) => Some(i + 1)
  }

  /** `x` is what a first-hit search for `p` over `s` returns: it is an element
      satisfying `p` and no earlier element does. */
  ghost predicate IsFirstMatch<T>(s: seq<T>, p: T -> bool, x: T)
  {
    exists i :: 0 <= i < |s| && s[i] == x && p(s[i]) && forall k :: 0 <= k < i ==> !p(s[k])
  }

  /** Turning an index found by `FirstIndex` into the element gives the first
      match. */
  lemma FirstIndexIsFirstMatch<T>(s: seq<T>, p: T -> bool)
    requires FirstIndex(s, p).Some?
    ensures IsFirstMatch(s, p, s[FirstIndex(s, p).value])
  {
  }
}
