/** The first element of a sequence with a property. */
module Searching {

  /** The position of the first element with a property, or the length. */
  function First<T>(s: seq<T>, p: T -> bool): (i: nat)
    ensures i <= |s| && (i < |s| ==> p(s[i]))
    ensures forall j :: 0 <= j < i ==> !p(s[j])
  {
    if s == [] then 0 else if p(s[0]) then 0 else 1 + First(s[1..], p)
  }

  lemma FirstIs<T>(s: seq<T>, p: T -> bool, i: nat)
    requires i <= |s| && (i < |s| ==> p(s[i])) && forall j :: 0 <= j < i ==> !p(s[j])
    ensures First(s, p) == i
  {
  }
}
