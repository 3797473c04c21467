/** Per-plane bounds of a set of colours, and the plane a box is split along. */
module Planes {
  import opened CArithmetic
  import opened Colors
  import opened Histogram

  /** The least value of plane `n`. */
  function Least(t: seq<Entry>, n: nat): (v: byte)
    requires t != [] && n < DEPTH
    ensures forall i :: 0 <= i < |t| ==> v <= Plane(t[i].tuple, n)
    ensures exists i :: 0 <= i < |t| && v == Plane(t[i].tuple, n)
  {
    var last := Plane(t[|t| - 1].tuple, n);
    if |t| == 1 then last else
    var v := Least(t[..|t| - 1], n);
    if last < v then last else v
  }

  /** The greatest value of plane `n`. */
  function Greatest(t: seq<Entry>, n: nat): (v: byte)
    requires t != [] && n < DEPTH
    ensures forall i :: 0 <= i < |t| ==> v >= Plane(t[i].tuple, n)
    ensures exists i :: 0 <= i < |t| && v == Plane(t[i].tuple, n)
  {
    var last := Plane(t[|t| - 1].tuple, n);
    if |t| == 1 then last else
    var v := Greatest(t[..|t| - 1], n);
    if last > v then last else v
  }

  function Width(t: seq<Entry>, n: nat): nat
    requires t != [] && n < DEPTH
  {
    var lo, hi := Least(t, n), Greatest(t, n);
    assert lo <= Plane(t[0].tuple, n) <= hi;
    hi - lo
  }

  lemma BoundsOne(t: seq<Entry>, n: nat)
    requires |t| == 1 && n < DEPTH
    ensures Least(t, n) == Greatest(t, n) == Plane(t[0].tuple, n)
  {
  }

  /** `findBoxBoundaries`. */
  method FindBoxBoundaries(table: array<Entry>, boxStart: nat, boxSize: nat, minval: array<byte>, maxval: array<byte>)
    requires 0 < boxSize && boxStart + boxSize <= table.Length
    requires minval.Length >= DEPTH && maxval.Length >= DEPTH && minval != maxval
    requires table as object != minval && table as object != maxval
    modifies minval, maxval
    ensures forall n: nat | n < DEPTH ::
              minval[n] == Least(table[boxStart..boxStart + boxSize], n)
                  && maxval[n] == Greatest(table[boxStart..boxStart + boxSize], n)
  {
    hide Least, Greatest, Plane;
    ghost var t := table[boxStart..boxStart + boxSize];
    var plane := 0;
    while plane < DEPTH
      invariant 0 <= plane <= DEPTH
      invariant forall n: nat | n < plane :: minval[n] == Least(t[..1], n) && maxval[n] == Greatest(t[..1], n)
    {
      BoundsOne(t[..1], plane);
      minval[plane] := Plane(table[boxStart].tuple, plane);
      maxval[plane] := minval[plane];
      plane := plane + 1;
    }
    var i := 1;
    while i < boxSize
      invariant 1 <= i <= boxSize
      invariant forall n: nat | n < DEPTH :: minval[n] == Least(t[..i], n) && maxval[n] == Greatest(t[..i], n)
    {
      WidenBy(table[boxStart + i], minval, maxval, t[..i]);
      assert t[..i] + [t[i]] == t[..i + 1];
      i := i + 1;
    }
    assert t[..boxSize] == t;
  }

  lemma BoundsSnoc(t: seq<Entry>, e: Entry, n: nat)
    requires t != [] && n < DEPTH
    ensures var v := Plane(e.tuple, n);
            && Least(t + [e], n) == (if v < Least(t, n) then v else Least(t, n))
            && Greatest(t + [e], n) == (if v > Greatest(t, n) then v else Greatest(t, n))
  {
    assert (t + [e])[..|t|] == t;
  }

  /** The loop over the planes of one table entry. */
  method WidenBy(e: Entry, minval: array<byte>, maxval: array<byte>, ghost t: seq<Entry>)
    requires t != [] && minval.Length >= DEPTH && maxval.Length >= DEPTH && minval != maxval
    requires forall n: nat | n < DEPTH :: minval[n] == Least(t, n) && maxval[n] == Greatest(t, n)
    modifies minval, maxval
    ensures forall n: nat | n < DEPTH :: minval[n] == Least(t + [e], n) && maxval[n] == Greatest(t + [e], n)
  {
    hide Least, Greatest, Plane;
    var plane := 0;
    while plane < DEPTH
      invariant 0 <= plane <= DEPTH
      invariant forall n: nat | n < plane :: minval[n] == Least(t + [e], n) && maxval[n] == Greatest(t + [e], n)
      invariant forall n: nat | plane <= n < DEPTH :: minval[n] == Least(t, n) && maxval[n] == Greatest(t, n)
    {
      var v := Plane(e.tuple, plane);
      BoundsSnoc(t, e, plane);
      if v < minval[plane] {
        minval[plane] := v;
      }
      if v > maxval[plane] {
        maxval[plane] := v;
      }
      plane := plane + 1;
    }
  }

  // ---- the plane to split along -------------------------------------------------------------

  datatype Largest = LargeNorm | LargeLum | LargeOther

  /** The luminosity weight of a plane. */
  function LumFactor(n: nat): real {
    if n == 0 then 0.2989 else if n == 1 then 0.5866 else 0.1145
  }

  /** What a spread counts for under the chosen method. */
  function Score(m: Largest, n: nat, spread: int): real {
    if m == LargeLum then LumFactor(n) * spread as real else spread as real
  }

  /** `plane` is the first plane with the largest score. */
  ghost predicate PicksLargest(m: Largest, t: seq<Entry>, plane: nat)
    requires t != []
  {
    && plane < DEPTH
    && (forall n: nat | n < DEPTH :: Score(m, n, Width(t, n)) <= Score(m, plane, Width(t, plane)))
    && (forall n: nat | n < plane :: Score(m, n, Width(t, n)) < Score(m, plane, Width(t, plane)))
  }

  /** `largestByNorm`. */
  method LargestByNorm(minval: array<byte>, maxval: array<byte>, ghost t: seq<Entry>) returns (largestDimension: nat)
    requires t != [] && minval.Length >= DEPTH && maxval.Length >= DEPTH
    requires forall n: nat | n < DEPTH :: minval[n] == Least(t, n) && maxval[n] == Greatest(t, n)
    ensures PicksLargest(LargeNorm, t, largestDimension)
  {
    hide Least, Greatest;
    var largestSpreadSoFar: int := 0;
    largestDimension := 0;
    var plane := 0;
    while plane < DEPTH
      invariant 0 <= plane <= DEPTH && largestDimension < DEPTH
      invariant largestSpreadSoFar == if plane == 0 then 0 else Width(t, largestDimension)
      invariant largestDimension <= plane && (plane > 0 ==> largestDimension < plane)
      invariant forall n: nat | n < plane :: Width(t, n) <= largestSpreadSoFar
      invariant forall n: nat | n < largestDimension :: Width(t, n) < largestSpreadSoFar
    {
      var spread := maxval[plane] as int - minval[plane] as int;
      assert spread == Width(t, plane);
      if spread > largestSpreadSoFar {
        largestDimension := plane;
        largestSpreadSoFar := spread;
      }
      plane := plane + 1;
    }
  }

  /** `largestByLuminosity`, with exact arithmetic in place of `double`. */
  method LargestByLuminosity(minval: array<byte>, maxval: array<byte>, ghost t: seq<Entry>)
    returns (largestDimension: nat)
    requires t != [] && minval.Length >= DEPTH && maxval.Length >= DEPTH
    requires forall n: nat | n < DEPTH :: minval[n] == Least(t, n) && maxval[n] == Greatest(t, n)
    ensures PicksLargest(LargeLum, t, largestDimension)
  {
    hide Least, Greatest;
    var largestSpreadSoFar := 0.0;
    largestDimension := 0;
    var plane := 0;
    while plane < 3
      invariant 0 <= plane <= 3 && largestDimension < DEPTH
      invariant largestSpreadSoFar == if plane == 0 then 0.0
                else Score(LargeLum, largestDimension, Width(t, largestDimension))
      invariant largestDimension <= plane && (plane > 0 ==> largestDimension < plane)
      invariant forall n: nat | n < plane :: Score(LargeLum, n, Width(t, n)) <= largestSpreadSoFar
      invariant forall n: nat | n < largestDimension :: Score(LargeLum, n, Width(t, n)) < largestSpreadSoFar
    {
      var spread := LumFactor(plane) * (maxval[plane] as int - minval[plane] as int) as real;
      assert spread == Score(LargeLum, plane, Width(t, plane));
      assert spread >= 0.0;
      if spread > largestSpreadSoFar {
        largestDimension := plane;
        largestSpreadSoFar := spread;
      }
      plane := plane + 1;
    }
  }

  lemma ColorsDiffer(a: Color, b: Color) returns (n: nat)
    requires a != b
    ensures n < DEPTH && Plane(a, n) != Plane(b, n)
  {
    n := if a.c0 != b.c0 then 0 else if a.c1 != b.c1 then 1 else 2;
  }

  /** Two different colours leave a positive spread in the plane that is picked. */
  lemma PositiveSpread(m: Largest, t: seq<Entry>, plane: nat)
    requires |t| >= 2 && DistinctTuples(t) && PicksLargest(m, t, plane) && m != LargeOther
    ensures Width(t, plane) > 0
  {
    hide Least, Greatest;
    var n := ColorsDiffer(t[0].tuple, t[1].tuple);
    assert Width(t, n) > 0;
    assert Score(m, n, Width(t, n)) > 0.0;
  }

  /** The plane that is picked, by weights in ten-thousandths. */
  lemma PickedPlane(m: Largest, t: seq<Entry>, plane: nat)
    requires t != [] && PicksLargest(m, t, plane) && m != LargeOther
    ensures var weight := if m == LargeNorm then [1, 1, 1] else [2989, 5866, 1145];
            forall n: nat | n < 3 && n != plane ::
              var mine, its := weight[plane] * Width(t, plane), weight[n] * Width(t, n);
              if n < plane then its < mine else its <= mine
  {
    hide Least, Greatest;
    var weight := if m == LargeNorm then [1, 1, 1] else [2989, 5866, 1145];
    forall n: nat | n < 3
      ensures (weight[n] * Width(t, n)) as real == Score(m, n, Width(t, n)) * (if m == LargeNorm then 1.0 else 10000.0)
    {
    }
  }
}
