/** The boxes of the median cut: intervals of the colour table with their sample totals. */
module Boxes {
  import opened Histogram

  /** `colors` table entries from `ind` on, standing for `sum` samples. */
  datatype Box = Box(ind: nat, colors: nat, sum: nat)

  /** The boxes in table order: non-empty intervals that follow each other from 0 to `n`. */
  ghost predicate Tiling(ord: seq<Box>, n: nat) {
    && ord != []
    && ord[0].ind == 0
    && (forall i :: 0 <= i < |ord| ==> ord[i].colors > 0)
    && (forall i :: 0 < i < |ord| ==> ord[i - 1].ind + ord[i - 1].colors == ord[i].ind)
    && ord[|ord| - 1].ind + ord[|ord| - 1].colors == n
  }

  /** In a tiling, earlier boxes end before later ones begin. */
  lemma {:induction false} TilingOrder(ord: seq<Box>, n: nat, i: nat, j: nat)
    requires Tiling(ord, n) && i < j < |ord|
    ensures ord[i].ind + ord[i].colors <= ord[j].ind
    decreases j
  {
    if i < j - 1 {
      TilingOrder(ord, n, i, j - 1);
    }
  }

  lemma TilingInside(ord: seq<Box>, n: nat, i: nat)
    requires Tiling(ord, n) && i < |ord|
    ensures ord[i].ind + ord[i].colors <= n
  {
    if i < |ord| - 1 {
      TilingOrder(ord, n, i, |ord| - 1);
    }
  }

  /** A tiling is a partition: every position lies in exactly one box. */
  lemma TilingPartitions(ord: seq<Box>, n: nat, k: nat)
    requires Tiling(ord, n) && k < n
    ensures exists i: nat :: i < |ord| && ord[i].ind <= k < ord[i].ind + ord[i].colors
    ensures forall i: nat, j: nat | i < j < |ord| ::
              !(ord[i].ind <= k < ord[i].ind + ord[i].colors && ord[j].ind <= k < ord[j].ind + ord[j].colors)
  {
    var i := BoxOf(ord, n, k, |ord| - 1);
    forall i: nat, j: nat | i < j < |ord|
      ensures !(ord[i].ind <= k < ord[i].ind + ord[i].colors && ord[j].ind <= k < ord[j].ind + ord[j].colors)
    {
      TilingOrder(ord, n, i, j);
    }
  }

  lemma {:induction false} BoxOf(ord: seq<Box>, n: nat, k: nat, last: nat) returns (i: nat)
    requires Tiling(ord, n) && last < |ord| && k < ord[last].ind + ord[last].colors
    ensures i <= last && ord[i].ind <= k < ord[i].ind + ord[i].colors
  {
    if ord[last].ind <= k {
      i := last;
    } else {
      i := BoxOf(ord, n, k, last - 1);
    }
  }

  /** Boxes that all hold one colour are as many as there are colours. */
  lemma {:induction false} SingletonTiling(ord: seq<Box>, n: nat, i: nat)
    requires Tiling(ord, n) && i < |ord| && forall b <- ord :: b.colors == 1
    ensures ord[i].ind == i && (i == |ord| - 1 ==> n == |ord|)
  {
    if i > 0 {
      SingletonTiling(ord, n, i - 1);
    }
  }

  /** Every box needs a colour of its own. */
  lemma {:induction false} TilingLength(ord: seq<Box>, n: nat, i: nat)
    requires Tiling(ord, n) && i < |ord|
    ensures i <= ord[i].ind && i < n
  {
    if i > 0 {
      TilingLength(ord, n, i - 1);
    }
    TilingInside(ord, n, i);
  }

  // ---- totals ---------------------------------------------------------------------------

  /** The table entries of a box. */
  function Slice(t: seq<Entry>, b: Box): seq<Entry>
    requires b.ind + b.colors <= |t|
  {
    t[b.ind..b.ind + b.colors]
  }

  lemma {:induction false} TotalConcat(a: seq<Entry>, b: seq<Entry>)
    ensures Total(a + b) == Total(a) + Total(b)
  {
    if b == [] {
      assert a + b == a;
    } else {
      var front := b[..|b| - 1];
      assert (a + b)[..|a + b| - 1] == a + front;
      TotalConcat(a, front);
    }
  }

  /** The total does not depend on the order. */
  lemma {:induction false} TotalPermuted(a: seq<Entry>, b: seq<Entry>)
    requires multiset(a) == multiset(b)
    ensures Total(a) == Total(b)
    decreases |a|
  {
    if a == [] {
      assert |multiset(b)| == 0;
    } else {
      var front, x := a[..|a| - 1], a[|a| - 1];
      assert a == front + [x];
      assert x in multiset(b);
      var k :| 0 <= k < |b| && b[k] == x;
      var rest := b[..k] + b[k + 1..];
      assert b == b[..k] + [x] + b[k + 1..];
      assert multiset(rest) == multiset(b) - multiset{x};
      TotalPermuted(front, rest);
      TotalConcat(b[..k] + [x], b[k + 1..]);
      TotalConcat(b[..k], [x]);
      TotalConcat(b[..k], b[k + 1..]);
    }
  }

  ghost predicate SumOk(t: seq<Entry>, b: Box) {
    b.ind + b.colors <= |t| && b.sum == Total(Slice(t, b))
  }

  // ---- distinct colours survive permutation ------------------------------------------------

  lemma {:induction false} DistinctOnce(a: seq<Entry>, e: Entry)
    requires DistinctTuples(a)
    ensures multiset(a)[e] <= 1
  {
    if a != [] {
      var front, x := a[..|a| - 1], a[|a| - 1];
      assert a == front + [x];
      DistinctOnce(front, e);
      assert x !in front;
    }
  }

  lemma MultiplicityTwo(b: seq<Entry>, i: nat, j: nat)
    requires i < j < |b| && b[i] == b[j]
    ensures multiset(b)[b[i]] >= 2
  {
    assert b == b[..j] + [b[j]] + b[j + 1..];
    assert b[i] in b[..j];
  }

  lemma DistinctPermuted(a: seq<Entry>, b: seq<Entry>)
    requires multiset(a) == multiset(b) && DistinctTuples(a)
    ensures DistinctTuples(b)
  {
    forall i, j | 0 <= i < j < |b|
      ensures b[i].tuple != b[j].tuple
    {
      if b[i].tuple == b[j].tuple {
        assert b[i] in multiset(a) && b[j] in multiset(a);
        assert b[i] in a && b[j] in a;
        assert b[i] == b[j];
        MultiplicityTwo(b, i, j);
        DistinctOnce(a, b[i]);
      }
    }
  }
}
