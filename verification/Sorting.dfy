/**
  `qsort` as its callers may rely on it: the range becomes a sorted permutation
  of itself.  Nothing is promised about ties, so nothing that uses `QSort` can
  depend on stability.
 */
module Sorting {

  ghost predicate SortedBy<T>(s: seq<T>, key: T -> int) {
    forall i, j :: 0 <= i < j < |s| ==> key(s[i]) <= key(s[j])
  }

  /** `x` put before the first element that is not smaller. */
  function Insert<T>(x: T, s: seq<T>, key: T -> int): (r: seq<T>)
    ensures |r| == |s| + 1
  {
    if s == [] || key(x) <= key(s[0]) then [x] + s else [s[0]] + Insert(x, s[1..], key)
  }

  lemma {:induction false} InsertElements<T>(x: T, s: seq<T>, key: T -> int)
    ensures multiset(Insert(x, s, key)) == multiset(s) + multiset{x}
  {
    if s != [] {
      assert s == [s[0]] + s[1..];
      InsertElements(x, s[1..], key);
    }
  }

  lemma {:induction false} InsertBounds<T>(x: T, s: seq<T>, key: T -> int, low: int)
    requires low <= key(x) && forall i :: 0 <= i < |s| ==> low <= key(s[i])
    ensures forall i :: 0 <= i < |Insert(x, s, key)| ==> low <= key(Insert(x, s, key)[i])
  {
    if s != [] && key(x) > key(s[0]) {
      InsertBounds(x, s[1..], key, low);
    }
  }

  lemma {:induction false} InsertSorted<T>(x: T, s: seq<T>, key: T -> int)
    requires SortedBy(s, key)
    ensures SortedBy(Insert(x, s, key), key)
  {
    if s != [] && key(x) > key(s[0]) {
      InsertSorted(x, s[1..], key);
      InsertBounds(x, s[1..], key, key(s[0]));
    }
  }

  function Sort<T>(s: seq<T>, key: T -> int): (r: seq<T>)
    ensures |r| == |s|
    ensures multiset(r) == multiset(s)
    ensures SortedBy(r, key)
  {
    if s == [] then [] else
    assert s == [s[0]] + s[1..];
    var t := Sort(s[1..], key);
    InsertElements(s[0], t, key);
    InsertSorted(s[0], t, key);
    Insert(s[0], t, key)
  }

  /** `qsort` on the range of `n` elements from `lo`. */
  method QSort<T>(a: array<T>, lo: nat, n: nat, key: T -> int)
    requires lo + n <= a.Length
    modifies a
    ensures a[..lo] == old(a[..lo]) && a[lo + n..] == old(a[lo + n..])
    ensures multiset(a[lo..lo + n]) == multiset(old(a[lo..lo + n]))
    ensures SortedBy(a[lo..lo + n], key)
  {
    var s := Sort(a[lo..lo + n], key);
    forall i | lo <= i < lo + n {
      a[i] := s[i - lo];
    }
    assert a[lo..lo + n] == s;
  }
}
