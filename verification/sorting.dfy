/**
  Ordering a snapshot of trackers by an integer sort key. The display sorts
  with an unstable sort, so among equal keys any arrangement may be shown;
  this module sorts by insertion and proves that every sorted rearrangement
  of a sequence lists the same keys in the same order.
 */
module Sorting {
  import opened Sequences

  /** Keys never decrease from left to right. */
  predicate SortedBy<T>(s: seq<T>, key: T -> int)
  {
    forall i, j :: 0 <= i < j < |s| ==> key(s[i]) <= key(s[j])
  }

  /** The keys of `s`, in sequence order. */
  function Keys<T>(s: seq<T>, key: T -> int): (ks: seq<int>)
    ensures |ks| == |s| && forall i :: 0 <= i < |s| ==> ks[i] == key(s[i])
  {
    seq(|s|, i requires 0 <= i < |s| => key(s[i]))
  }

  /** A key no larger than the first key of a sorted sequence can go in front of it. */
  lemma SortedCons<T>(x: T, s: seq<T>, key: T -> int)
    requires SortedBy(s, key) && (|s| == 0 || key(x) <= key(s[0]))
    ensures SortedBy([x] + s, key)
  {
  }

  /**
    Inserts `x` into a sorted sequence, before the first larger-or-equal key;
    the result starts with the smaller of `x`'s key and the old first key.
   */
  function Insert<T>(x: T, s: seq<T>, key: T -> int): (r: seq<T>)
    requires SortedBy(s, key)
    ensures multiset(r) == multiset(s) + multiset{x}
    ensures |r| == |s| + 1
    ensures SortedBy(r, key)
    ensures key(r[0]) == if |s| == 0 || key(x) <= key(s[0]) then key(x) else key(s[0])
  {
    if |s| == 0 then [x]
    else if key(x) <= key(s[0]) then
      SortedCons(x, s, key);
      [x] + s
    else
      assert s == [s[0]] + s[1..];
      var r := Insert(x, s[1..], key);
      SortedCons(s[0], r, key);
      [s[0]] + r
  }

  /** Insertion sort by `key`. */
  function Sort<T>(s: seq<T>, key: T -> int): (r: seq<T>)
    ensures multiset(r) == multiset(s)
    ensures SortedBy(r, key)
  {
    if |s| == 0 then []
    else
      assert s == [s[0]] + s[1..];
      Insert(s[0], Sort(s[1..], key), key)
  }

  /** Dropping one element keeps a sequence sorted. */
  lemma SortedWithout<T>(s: seq<T>, key: T -> int, j: nat)
    requires SortedBy(s, key) && j < |s|
    ensures SortedBy(s[..j] + s[j + 1..], key)
  {

  }

  /** Sorted rearrangements of the same elements start with the same key. */
  lemma FirstKeysAgree<T>(a: seq<T>, b: seq<T>, key: T -> int)
    requires SortedBy(a, key) && SortedBy(b, key)
    requires multiset(a) == multiset(b) && |a| > 0
    ensures |b| > 0 && key(a[0]) == key(b[0])
  {
    assert a[0] in multiset(b);
    var j :| 0 <= j < |b| && b[j] == a[0];
    assert b[0] in multiset(a);
    var i :| 0 <= i < |a| && a[i] == b[0];
    assert key(b[0]) <= key(b[j]);
    assert key(a[0]) <= key(a[i]);
  }

  /**
    In a sorted sequence whose first key equals the key at `j`, removing the
    element at `j` and putting it in front leaves the keys unchanged.
   */
  lemma KeysWithout<T>(b: seq<T>, key: T -> int, j: nat)
    requires SortedBy(b, key) && j < |b| && key(b[0]) == key(b[j])
    ensures Keys(b, key) == [key(b[j])] + Keys(b[..j] + b[j + 1..], key)
  {

  }

  /**
    One step of the comparison below: the first element of `a` sits at some
    `j` in `b`, and deleting it from both leaves sorted rearrangements of
    the same elements whose keys follow the shared first key.
   */
  lemma PeelFirst<T>(a: seq<T>, b: seq<T>, key: T -> int) returns (j: nat)
    requires SortedBy(a, key) && SortedBy(b, key)
    requires multiset(a) == multiset(b) && |a| > 0
    ensures j < |b| && b[j] == a[0]
    ensures var a', b' := a[1..], b[..j] + b[j + 1..];
      && multiset(a') == multiset(b')
      && SortedBy(a', key) && SortedBy(b', key)
      && Keys(a, key) == [key(a[0])] + Keys(a', key)
      && Keys(b, key) == [key(a[0])] + Keys(b', key)
  {
    FirstKeysAgree(a, b, key);
    assert a[0] in multiset(b);
    j :| 0 <= j < |b| && b[j] == a[0];
    assert a[..0] + a[1..] == a[1..];
    MultisetWithout(a, 0);
    MultisetWithout(b, j);
    SortedWithout(a, key, 0);
    SortedWithout(b, key, j);
    KeysWithout(a, key, 0);
    KeysWithout(b, key, j);
  }

  /**
    Two sorted rearrangements of the same elements list the same keys: an
    unstable sort leaves only the order among equal keys open.
   */
  lemma {:induction false} SortedKeysAgree<T>(a: seq<T>, b: seq<T>, key: T -> int)
    requires SortedBy(a, key) && SortedBy(b, key)
    requires multiset(a) == multiset(b)
    ensures Keys(a, key) == Keys(b, key)
    decreases |a|
  {
    if |a| == 0 {
      assert |b| == |multiset(b)| == 0;
    } else {
      var j := PeelFirst(a, b, key);
      SortedKeysAgree(a[1..], b[..j] + b[j + 1..], key);
    }
  }
}
