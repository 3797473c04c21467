/** Palette compaction: what the optimising scan stores instead of the raw indices. */
module Compaction {
  import opened CArithmetic
  import opened Colors
  import opened FirstUses

  /** The plain path stores the indices themselves. */
  ghost predicate PlainResult(indices: seq<int>, result: seq<byte>) {
    |result| == |indices| && forall i :: 0 <= i < |indices| ==> result[i] == indices[i]
  }

  /** Every index names a palette entry. */
  ghost predicate IndicesInRange(indices: seq<int>, pal: seq<byte>) {
    forall i :: 0 <= i < |indices| ==> 0 <= indices[i] && DEPTH * indices[i] + 2 < |pal|
  }

  /**
    The optimising path stores ranks among the colours used so far and collects
    those colours, in that order, in `kept`.
   */
  ghost predicate CompactResult(indices: seq<int>, pal: seq<byte>, result: seq<byte>, kept: seq<byte>, ncolors: int) {
    var u := FirstUse(indices);
    && |result| == |indices|
    && ncolors == |u|
    && DEPTH * |u| <= |kept|
    && (forall i :: 0 <= i < |indices| ==> result[i] == Rank(u, indices[i]))
    && (forall k: nat | k < |u| :: 0 <= u[k] && DEPTH * u[k] + 2 < |pal| && PixelAt(kept, k) == PixelAt(pal, u[k]))
  }

  /** Colour number `r` occurs before position `i`. */
  ghost predicate SeenBefore(result: seq<byte>, i: nat, r: int) {
    exists j: nat :: j < i && j < |result| && result[j] == r
  }

  /** Numbers appear in order: number r occurs only after number r - 1. */
  ghost predicate NumberedByFirstUse(result: seq<byte>) {
    forall i: nat | i < |result| && result[i] > 0 :: SeenBefore(result, i, result[i] - 1)
  }

  /**
    Compaction preserves the picture.  Wherever the plain path and the
    optimising path draw, they draw the same colour; the kept colours are
    numbered in the order of their first use, each of them is used, and
    `ncolors` counts the distinct palette entries used.
   */
  lemma CompactionPreservesPicture(indices: seq<int>, pal: seq<byte>, plain: seq<byte>, result: seq<byte>,
                                   kept: seq<byte>, ncolors: int)
    requires IndicesInRange(indices, pal)
    requires PlainResult(indices, plain) && CompactResult(indices, pal, result, kept, ncolors)
    ensures forall i: nat | i < |indices| ::
              0 <= result[i] < ncolors && PixelAt(kept, result[i]) == PixelAt(pal, plain[i])
    ensures NumberedByFirstUse(result)
    ensures forall r: nat | r < ncolors :: SeenBefore(result, |result|, r)
    ensures ncolors == |set i: nat | i < |indices| :: indices[i]|
  {
    hide Rank, FirstUse;
    var u := FirstUse(indices);
    forall i: nat | i < |indices|
      ensures 0 <= result[i] < ncolors && PixelAt(kept, result[i]) == PixelAt(pal, plain[i])
    {
      assert indices[i] in u;
    }
    forall i: nat | i < |result| && result[i] > 0
      ensures SeenBefore(result, i, result[i] - 1)
    {
      var j := EarlierColour(indices, i);
      assert result[j] == result[i] - 1;
    }
    forall r: nat | r < ncolors
      ensures SeenBefore(result, |result|, r)
    {
      var i := UseOf(indices, r);
      assert result[i] == r;
    }
    DistinctCount(indices);
  }

  /** Some position uses the colour with rank `r`. */
  lemma UseOf(indices: seq<int>, r: nat) returns (i: nat)
    requires r < |FirstUse(indices)|
    ensures i < |indices| && indices[i] == FirstUse(indices)[r]
    ensures Rank(FirstUse(indices), indices[i]) == r
  {
    var u := FirstUse(indices);
    assert u[r] in indices;
    RankUnique(u, r);
    i :| i < |indices| && indices[i] == u[r];
  }

  /** A colour with rank r > 0 is preceded by an occurrence of the colour with rank r - 1. */
  lemma EarlierColour(indices: seq<int>, i: nat) returns (j: nat)
    requires i < |indices| && Rank(FirstUse(indices), indices[i]) > 0
    ensures j < i && Rank(FirstUse(indices), indices[j]) == Rank(FirstUse(indices), indices[i]) - 1
  {
    hide Rank, FirstUse;
    var u := FirstUse(indices);
    var r := Rank(u, indices[i]);
    FirstUseOrder(indices, r - 1, r);
    assert u[r - 1] in indices && u[r] in indices;
    j := Rank(indices, u[r - 1]);
    assert Rank(indices, u[r]) <= i;
    RankUnique(u, r - 1);
  }

  /** `FirstUse` lists each element once. */
  lemma {:induction false} SetOfDistinct(u: seq<int>)
    requires forall i, j :: 0 <= i < j < |u| ==> u[i] != u[j]
    ensures |set x | x in u| == |u|
  {
    if u != [] {
      var front, last := u[..|u| - 1], u[|u| - 1];
      SetOfDistinct(front);
      assert u == front + [last];
      assert (set x | x in u) == (set x | x in front) + {last};
    }
  }

  lemma DistinctCount(indices: seq<int>)
    ensures |set i: nat | i < |indices| :: indices[i]| == |FirstUse(indices)|
  {
    var u := FirstUse(indices);
    SetOfDistinct(u);
    var a, b := set i: nat | i < |indices| :: indices[i], set x | x in u;
    forall x
      ensures x in a <==> x in b
    {
    }
    assert a == b;
  }
}
