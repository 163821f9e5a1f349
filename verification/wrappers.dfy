/** Optional values and the two sequence searches the tiler uses everywhere:
    Swift's `first(where:)` and `firstIndex(of:)`. */
module Wrappers {

  /** Swift's `Optional`: a value or nothing. */
  datatype Option<+T> = None | Some(value: T)

  /** Position of the first element of `s` that satisfies `p`, if any. */
  function FirstIndexWhere<T>(s: seq<T>, p: T -> bool): (r: Option<nat>)
    ensures r.Some? ==> r.value < |s| && p(s[r.value])
    ensures r.Some? ==> forall j :: 0 <= j < r.value ==> !p(s[j])
    ensures r.None? <==> forall j :: 0 <= j < |s| ==> !p(s[j])
    decreases |s|
  {
    if |s| == 0 then None
    else if p(s[0]) then Some(0)
    else
      match FirstIndexWhere(s[1..], p)
      case None => None
      case Some(i) => Some(i + 1)
  }

  /** Swift's `first(where:)`: the first element satisfying `p`. */
  function FirstWhere<T>(s: seq<T>, p: T -> bool): (r: Option<T>)
    ensures r.Some? ==> r.value in s && p(r.value)
    ensures r.None? <==> forall x :: x in s ==> !p(x)
  {
    match FirstIndexWhere(s, p)
    case None => None
    case Some(i) => Some(s[i])
  }

  /** Swift's `firstIndex(of:)`. */
  function IndexOf<T(==)>(s: seq<T>, x: T): (r: Option<nat>)
    ensures r.Some? ==> r.value < |s| && s[r.value] == x
    ensures r.Some? ==> forall j :: 0 <= j < r.value ==> s[j] != x
    ensures r.None? <==> x !in s
  {
    FirstIndexWhere(s, y => y == x)
  }

  /** In a sequence without repeated elements, the index of `s[i]` is `i`. */
  lemma IndexOfDistinct<T>(s: seq<T>, i: nat)
    requires forall a, b :: 0 <= a < b < |s| ==> s[a] != s[b]
    requires i < |s|
    ensures IndexOf(s, s[i]) == Some(i)
  {
    assert s[i] in s;
  }

  /** Searching a prefix finds the same position as searching the whole
      sequence, whenever the prefix search finds anything. */
  lemma IndexOfPrefix<T>(s: seq<T>, n: nat, m: nat, x: T)
    requires n <= m <= |s|
    requires IndexOf(s[..n], x).Some?
    ensures IndexOf(s[..m], x) == IndexOf(s[..n], x)
  {
    var i := IndexOf(s[..n], x).value;
    assert s[..m][i] == x;
  }
}
