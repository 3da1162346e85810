/** Reordering sequences. */
module Sequences {

  function MovedToFront<T>(s: seq<T>, i: nat): seq<T>
    requires i < |s|
  {
    [s[i]] + s[..i] + s[i + 1..]
  }

  lemma MovedIsReordered<T>(s: seq<T>, i: nat)
    requires i < |s|
    ensures multiset(MovedToFront(s, i)) == multiset(s) && MovedToFront(s, i)[0] == s[i]
  {
    assert s == s[..i] + [s[i]] + s[i + 1..];
  }
}
