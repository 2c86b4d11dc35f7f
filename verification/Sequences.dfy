/** Searching a sequence. */
module Sequences {

  /** The position of the first element that a condition picks; the length when there is none. */
  function FirstIndex<T>(s: seq<T>, picks: T -> bool): (n: nat)
    ensures n <= |s|
    ensures n < |s| ==> picks(s[n])
    ensures forall i :: 0 <= i < n ==> !picks(s[i])
  {
    if s == [] || picks(s[0]) then 0 else 1 + FirstIndex(s[1..], picks)
  }
}
