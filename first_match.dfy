/**
  First-match linear search, the one search shape every lookup of the
  model shares: scan a sequence front to back and stop at the first
  element that satisfies a test.
 */
module FirstMatch {

  /** The model's stand-in for a nullable result: `None` is `null` (or `""`). */
  datatype Option<+T> = None | Some(value: T)

  /** The index of the first element of `s` that satisfies `p`, or `None`
      when no element does. */
  function FirstIndex<T>(s: seq<T>, p: T -> bool): (r: Option<nat>)
    ensures r.Some? ==> r.value < |s| && p(s[r.value])
    ensures r.Some? ==> forall k :: 0 <= k < r.value ==> !p(s[k])
    ensures r.None? <==> forall k :: 0 <= k < |s| ==> !p(s[k])
    decreases |s|
  {
    if s == [] then None
    else if p(s[0]) then Some(0)
    else match FirstIndex(s[1..], p)
      case None =>
        assert forall k :: 1 <= k < |s| ==> s[k] == s[1..][k - 1];
        None
      case Some(j) =>
        assert forall k :: 1 <= k <= j ==> s[k] == s[1..][k - 1];
        Some(j + 1)
  }

  /** An index that satisfies `p` and has no satisfying predecessor is the
      one `FirstIndex` finds. */
  lemma FirstIndexIs<T>(s: seq<T>, p: T -> bool, j: nat)
    requires j < |s| && p(s[j])
    requires forall k :: 0 <= k < j ==> !p(s[k])
    ensures FirstIndex(s, p) == Some(j)
  {
  }

  /** Elements after a match are never looked at: appending to a sequence
      that already contains a match does not move the first match. */
  lemma {:induction false} FirstIndexAppend<T>(s: seq<T>, t: seq<T>, p: T -> bool)
    requires FirstIndex(s, p).Some?
    ensures FirstIndex(s + t, p) == FirstIndex(s, p)
    decreases |s|
  {
    if !p(s[0]) {
      assert (s + t)[1..] == s[1..] + t;
      FirstIndexAppend(s[1..], t, p);
    }
  }
}
