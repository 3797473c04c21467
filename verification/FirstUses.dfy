/**
  Distinct values of a sequence in the order in which they first occur.

  The histogram's reference map and the compacted palette are both built this
  way, so both are specified by `FirstUse`.
 */
module FirstUses {

  function FirstUse(xs: seq<int>): (u: seq<int>)
    ensures forall x :: x in u <==> x in xs
    ensures forall i, j :: 0 <= i < j < |u| ==> u[i] != u[j]
  {
    if xs == [] then [] else
    var u := FirstUse(xs[..|xs| - 1]);
    var last := xs[|xs| - 1];
    assert xs == xs[..|xs| - 1] + [last];
    if last in u then u else u + [last]
  }

  /** One more element: appended exactly when it is new. */
  lemma FirstUseSnoc(xs: seq<int>, x: int)
    ensures FirstUse(xs + [x]) == if x in xs then FirstUse(xs) else FirstUse(xs) + [x]
  {
    assert (xs + [x])[..|xs|] == xs;
  }

  /** The position of `x` in `u`. */
  function Rank(u: seq<int>, x: int): (r: nat)
    requires x in u
    ensures r < |u| && u[r] == x
    ensures forall i :: 0 <= i < r ==> u[i] != x
  {
    if u[0] == x then 0 else 1 + Rank(u[1..], x)
  }

  /** In a sequence without repetitions the rank is the only position. */
  lemma RankUnique(u: seq<int>, i: nat)
    requires forall i, j :: 0 <= i < j < |u| ==> u[i] != u[j]
    requires i < |u|
    ensures Rank(u, u[i]) == i
  {
    var r := Rank(u, u[i]);
    assert r <= i;
  }

  /** `FirstUse` lists values in the order of their first occurrences. */
  lemma {:induction false} FirstUseOrder(xs: seq<int>, i: nat, j: nat)
    requires i < j < |FirstUse(xs)|
    ensures Rank(xs, FirstUse(xs)[i]) < Rank(xs, FirstUse(xs)[j])
  {
    var n := |xs| - 1;
    var front, last := xs[..n], xs[n];
    var u := FirstUse(front);
    assert xs == front + [last];
    forall x | x in front
      ensures Rank(xs, x) == Rank(front, x)
    {
      RankOfPrefix(front, [last], x);
    }
    if j < |u| {
      FirstUseOrder(front, i, j);
      assert u[i] in front && u[j] in front;
    } else {
      assert u[i] in front;
      assert last !in front;
      assert Rank(xs, last) == n;
    }
  }

  lemma {:induction false} RankOfPrefix(a: seq<int>, b: seq<int>, x: int)
    requires x in a
    ensures Rank(a + b, x) == Rank(a, x)
  {
    if a[0] != x {
      assert (a + b)[1..] == a[1..] + b;
      RankOfPrefix(a[1..], b, x);
    }
  }

  /** Pigeonhole: `n` values below `bound` without repetition need `n <= bound`. */
  lemma {:induction false} DistinctBounded(u: seq<int>, bound: nat)
    requires forall i, j :: 0 <= i < j < |u| ==> u[i] != u[j]
    requires forall i :: 0 <= i < |u| ==> 0 <= u[i] < bound
    ensures |u| <= bound
  {
    if u != [] {
      assert 0 <= u[0] < bound;
      var top := bound - 1;
      if top in u {
        var r := Rank(u, top);
        var rest := u[..r] + u[r + 1..];
        DistinctBounded(rest, top);
      } else {
        DistinctBounded(u, top);
      }
    }
  }

  /** How often `x` occurs in `xs`. */
  function Count(xs: seq<int>, x: int): (n: nat)
    ensures n <= |xs|
    ensures n > 0 <==> x in xs
  {
    if xs == [] then 0 else
    assert xs == xs[..|xs| - 1] + [xs[|xs| - 1]];
    Count(xs[..|xs| - 1], x) + if xs[|xs| - 1] == x then 1 else 0
  }

  lemma CountSnoc(xs: seq<int>, y: int, x: int)
    ensures Count(xs + [y], x) == Count(xs, x) + if x == y then 1 else 0
  {
    assert (xs + [y])[..|xs|] == xs;
  }

  /** The total count of the listed values. */
  function CountAll(xs: seq<int>, u: seq<int>): nat {
    if u == [] then 0 else CountAll(xs, u[..|u| - 1]) + Count(xs, u[|u| - 1])
  }

  lemma {:induction false} CountAllSnoc(xs: seq<int>, y: int, u: seq<int>)
    requires forall i, j :: 0 <= i < j < |u| ==> u[i] != u[j]
    ensures CountAll(xs + [y], u) == CountAll(xs, u) + if y in u then 1 else 0
  {
    if u != [] {
      var front, last := u[..|u| - 1], u[|u| - 1];
      assert u == front + [last];
      CountAllSnoc(xs, y, front);
      CountSnoc(xs, y, last);
    }
  }

  /** Every occurrence is counted once: the counts of the distinct values add up to the length. */
  lemma {:induction false} CountAllFirstUse(xs: seq<int>)
    ensures CountAll(xs, FirstUse(xs)) == |xs|
  {
    if xs != [] {
      var front, last := xs[..|xs| - 1], xs[|xs| - 1];
      assert xs == front + [last];
      var u := FirstUse(front);
      CountAllFirstUse(front);
      CountAllSnoc(front, last, u);
      if last !in u {
        assert (u + [last])[..|u|] == u;
        CountSnoc(front, last, last);
        assert Count(front, last) == 0;
      }
    }
  }
}
