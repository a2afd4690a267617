/** Facts about sequences shared by the counter and the sorting modules. */
module Sequences {

  /** Deleting the element at `j` takes exactly one copy of it out of the multiset. */
  lemma MultisetWithout<T>(s: seq<T>, j: nat)
    requires j < |s|
    ensures multiset(s[..j] + s[j + 1..]) == multiset(s) - multiset{s[j]}
  {
    assert s == s[..j] + [s[j]] + s[j + 1..];
  }
}
