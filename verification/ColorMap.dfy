/** From boxes to colours: the three representatives, and the palette made from an image. */
module ColorMap {
  import opened CArithmetic
  import opened Colors
  import opened Histogram
  import opened Boxes
  import opened Planes
  import opened MedianCut

  /** `method_for_rep`; other values leave the colour map entry at zero. */
  datatype Rep = RepCenterBox | RepAverageColors | RepAveragePixels | RepOther

  // ---- representatives, on values ----------------------------------------------------------

  /** The sum of plane `n`. */
  function PlaneSum(t: seq<Entry>, n: nat): nat
    requires n < DEPTH
  {
    if t == [] then 0 else PlaneSum(t[..|t| - 1], n) + Plane(t[|t| - 1].tuple, n)
  }

  /** The sum of plane `n`, each colour weighted by its samples. */
  function WeightedSum(t: seq<Entry>, n: nat): nat
    requires n < DEPTH
  {
    if t == [] then 0 else WeightedSum(t[..|t| - 1], n) + Plane(t[|t| - 1].tuple, n) * t[|t| - 1].value
  }

  /** One plane of the representative of the colours `t`. */
  function RepPlane(t: seq<Entry>, rep: Rep, n: nat): int
    requires t != [] && n < DEPTH && Total(t) > 0
  {
    match rep
    case RepCenterBox => (Least(t, n) + Greatest(t, n)) / 2
    case RepAverageColors => PlaneSum(t, n) / |t|
    case RepAveragePixels => WeightedSum(t, n) / Total(t)
    case RepOther => 0
  }

  lemma {:induction false} PlaneSumBounds(t: seq<Entry>, n: nat, lo: nat, hi: nat)
    requires n < DEPTH && forall e <- t :: lo <= Plane(e.tuple, n) <= hi
    ensures lo * |t| <= PlaneSum(t, n) <= hi * |t|
  {
    if t != [] {
      PlaneSumBounds(t[..|t| - 1], n, lo, hi);
      assert t[|t| - 1] in t;
      ScaleBounds(lo, lo, hi, 1, |t| - 1);
    }
  }

  lemma {:induction false} WeightedSumBounds(t: seq<Entry>, n: nat, lo: nat, hi: nat)
    requires n < DEPTH && forall e <- t :: lo <= Plane(e.tuple, n) <= hi
    ensures lo * Total(t) <= WeightedSum(t, n) <= hi * Total(t)
  {
    if t != [] {
      WeightedSumBounds(t[..|t| - 1], n, lo, hi);
      var e := t[|t| - 1];
      assert e in t;
      ScaleBounds(lo, Plane(e.tuple, n), hi, e.value, Total(t[..|t| - 1]));
    }
  }

  lemma ScaleBounds(lo: nat, v: nat, hi: nat, w: nat, total: nat)
    requires lo <= v <= hi
    ensures lo * (total + w) == lo * total + lo * w && hi * (total + w) == hi * total + hi * w
    ensures lo * w <= v * w <= hi * w
  {
  }

  lemma QuotientBounds(s: nat, d: nat, lo: nat, hi: nat)
    requires d > 0 && lo * d <= s <= hi * d
    ensures lo <= s / d <= hi
  {
    var q := s / d;
    assert q * d <= s < q * d + d;
    assert (q + 1) * d == q * d + d && (hi + 1) * d == hi * d + d;
    CancelFactor(lo, q + 1, d);
    CancelFactor(q, hi + 1, d);
  }

  /** Every representative lies inside the bounds of its box, plane by plane. */
  lemma RepInsideBox(t: seq<Entry>, rep: Rep, n: nat)
    requires t != [] && n < DEPTH && Total(t) > 0 && rep != RepOther
    ensures Least(t, n) <= RepPlane(t, rep, n) <= Greatest(t, n)
  {
    hide Least, Greatest, PlaneSum, WeightedSum, Total;
    var lo, hi := Least(t, n), Greatest(t, n);
    forall e | e in t
      ensures lo <= Plane(e.tuple, n) <= hi
    {
    }
    match rep
    case RepCenterBox => assert t[0] in t;
    case RepAverageColors =>
      PlaneSumBounds(t, n, lo, hi);
      QuotientBounds(PlaneSum(t, n), |t|, lo, hi);
    case RepAveragePixels =>
      WeightedSumBounds(t, n, lo, hi);
      QuotientBounds(WeightedSum(t, n), Total(t), lo, hi);
  }

  /** The centre is within half the spread, rounded up, of every colour of the box. */
  lemma CenterIsCentral(t: seq<Entry>, n: nat, e: Entry)
    requires t != [] && n < DEPTH && Total(t) > 0 && e in t
    ensures -((Width(t, n) + 1) / 2) <= Plane(e.tuple, n) as int - RepPlane(t, RepCenterBox, n) <= (Width(t, n) + 1) / 2
  {
    hide Least, Greatest, Total;
    var i :| 0 <= i < |t| && t[i] == e;
    assert Least(t, n) <= Plane(t[i].tuple, n) <= Greatest(t, n);
  }

  /** The three representatives of two colours. */
  lemma RepOfTwo(a: Entry, b: Entry, n: nat)
    requires n < DEPTH && a.value + b.value > 0
    ensures var va, vb := Plane(a.tuple, n), Plane(b.tuple, n);
            && Total([a, b]) == a.value + b.value
            && RepPlane([a, b], RepCenterBox, n) == RepPlane([a, b], RepAverageColors, n) == (va + vb) / 2
            && RepPlane([a, b], RepAveragePixels, n) == (va * a.value + vb * b.value) / (a.value + b.value)
  {
    hide Total, PlaneSum, WeightedSum, Plane;
    SumsOfTwo(a, b, n);
    BoundsOne([a], n);
    BoundsSnoc([a], b, n);
    assert [a] + [b] == [a, b];
  }

  lemma SumsOfTwo(a: Entry, b: Entry, n: nat)
    requires n < DEPTH
    ensures Total([a, b]) == a.value + b.value
    ensures PlaneSum([a, b], n) == Plane(a.tuple, n) as int + Plane(b.tuple, n) as int
    ensures WeightedSum([a, b], n) == Plane(a.tuple, n) * a.value + Plane(b.tuple, n) * b.value
  {
    var t := [a, b];
    assert t[..|t| - 1] == [a];
    SumsOfOne(a, n);
  }

  lemma SumsOfOne(a: Entry, n: nat)
    requires n < DEPTH
    ensures Total([a]) == a.value
    ensures PlaneSum([a], n) == Plane(a.tuple, n) && WeightedSum([a], n) == Plane(a.tuple, n) * a.value
  {
    var t := [a];
    assert t[..|t| - 1] == [];
  }

  // ---- representatives, in loops ------------------------------------------------------------

  /** Every entry stands for at least one sample. */
  ghost predicate Populated(t: seq<Entry>) {
    forall e <- t :: e.value > 0
  }

  lemma PopulatedTotal(t: seq<Entry>)
    requires t != [] && Populated(t)
    ensures Total(t) > 0
  {
    assert t[|t| - 1] in t;
  }

  lemma BoundsNext(t: seq<Entry>, i: nat, n: nat)
    requires 0 < i < |t| && n < DEPTH
    ensures var v := Plane(t[i].tuple, n);
            && Least(t[..i + 1], n) == (if Least(t[..i], n) < v then Least(t[..i], n) else v)
            && Greatest(t[..i + 1], n) == (if Greatest(t[..i], n) > v then Greatest(t[..i], n) else v)
  {
    hide Least, Greatest, Plane;
    BoundsSnoc(t[..i], t[i], n);
    assert t[..i] + [t[i]] == t[..i + 1];
  }

  /** The inner loop of `centerBox`. */
  method PlaneBounds(boxStart: nat, boxSize: nat, table: array<Entry>, plane: nat) returns (minval: byte, maxval: byte)
    requires 0 < boxSize && boxStart + boxSize <= table.Length && plane < DEPTH
    ensures minval == Least(table[boxStart..boxStart + boxSize], plane)
    ensures maxval == Greatest(table[boxStart..boxStart + boxSize], plane)
  {
    hide Least, Greatest, Plane;
    ghost var t := table[boxStart..boxStart + boxSize];
    minval := Plane(table[boxStart].tuple, plane);
    maxval := minval;
    BoundsOne(t[..1], plane);
    var i := 1;
    while i < boxSize
      invariant 1 <= i <= boxSize
      invariant minval == Least(t[..i], plane) && maxval == Greatest(t[..i], plane)
    {
      var v := Plane(table[boxStart + i].tuple, plane);
      BoundsNext(t, i, plane);
      minval := if minval < v then minval else v;
      maxval := if maxval > v then maxval else v;
      i := i + 1;
    }
    assert t[..i] == t;
  }

  /** `centerBox`. */
  method CenterBox(boxStart: nat, boxSize: nat, table: array<Entry>) returns (newTuple: Color)
    requires 0 < boxSize && boxStart + boxSize <= table.Length
    ensures var t := table[boxStart..boxStart + boxSize];
            forall n: nat | n < DEPTH :: Plane(newTuple, n) as int == (Least(t, n) + Greatest(t, n)) / 2
  {
    hide Least, Greatest, Plane;
    ghost var t := table[boxStart..boxStart + boxSize];
    newTuple := Color(0, 0, 0);
    var plane := 0;
    while plane < DEPTH
      invariant 0 <= plane <= DEPTH
      invariant forall n: nat | n < plane :: Plane(newTuple, n) as int == (Least(t, n) + Greatest(t, n)) / 2
    {
      var minval, maxval := PlaneBounds(boxStart, boxSize, table, plane);
      newTuple := SetPlane(newTuple, plane, (minval as int + maxval as int) / 2);
      plane := plane + 1;
    }
  }

  /** `averageColors`. */
  method AverageColors(boxStart: nat, boxSize: nat, table: array<Entry>) returns (newTuple: Color)
    requires 0 < boxSize && boxStart + boxSize <= table.Length
    ensures var t := table[boxStart..boxStart + boxSize];
            forall n: nat | n < DEPTH :: Plane(newTuple, n) as int == PlaneSum(t, n) / |t|
  {
    hide Plane;
    ghost var t := table[boxStart..boxStart + boxSize];
    newTuple := Color(0, 0, 0);
    var plane := 0;
    while plane < DEPTH
      invariant 0 <= plane <= DEPTH
      invariant forall n: nat | n < plane :: Plane(newTuple, n) as int == PlaneSum(t, n) / |t|
    {
      var sum: nat := 0;
      var i := 0;
      while i < boxSize
        invariant 0 <= i <= boxSize
        invariant sum == PlaneSum(t[..i], plane)
      {
        sum := sum + Plane(table[boxStart + i].tuple, plane);
        assert t[..i + 1][..i] == t[..i];
        i := i + 1;
      }
      assert t[..i] == t;
      PlaneSumBounds(t, plane, 0, 255);
      QuotientBounds(sum, boxSize, 0, 255);
      newTuple := SetPlane(newTuple, plane, sum / boxSize);
      plane := plane + 1;
    }
  }

  /** `averagePixels`. */
  method AveragePixels(boxStart: nat, boxSize: nat, table: array<Entry>) returns (newTuple: Color)
    requires 0 < boxSize && boxStart + boxSize <= table.Length
    requires Populated(table[boxStart..boxStart + boxSize])
    ensures var t := table[boxStart..boxStart + boxSize];
            Total(t) > 0 && forall n: nat | n < DEPTH :: Plane(newTuple, n) as int == WeightedSum(t, n) / Total(t)
  {
    hide Plane;
    ghost var t := table[boxStart..boxStart + boxSize];
    var count := CountSamples(boxStart, boxSize, table);
    PopulatedTotal(t);
    newTuple := Color(0, 0, 0);
    var plane := 0;
    while plane < DEPTH
      invariant 0 <= plane <= DEPTH
      invariant forall n: nat | n < plane :: Plane(newTuple, n) as int == WeightedSum(t, n) / Total(t)
    {
      var sum: nat := 0;
      var i := 0;
      while i < boxSize
        invariant 0 <= i <= boxSize
        invariant sum == WeightedSum(t[..i], plane)
      {
        sum := sum + Plane(table[boxStart + i].tuple, plane) as int * table[boxStart + i].value;
        assert t[..i + 1][..i] == t[..i];
        i := i + 1;
      }
      assert t[..i] == t;
      WeightedSumBounds(t, plane, 0, 255);
      QuotientBounds(sum, count, 0, 255);
      newTuple := SetPlane(newTuple, plane, sum / count);
      plane := plane + 1;
    }
  }

  /** The samples a box stands for. */
  method CountSamples(boxStart: nat, boxSize: nat, table: array<Entry>) returns (n: nat)
    requires boxStart + boxSize <= table.Length
    ensures n == Total(table[boxStart..boxStart + boxSize])
  {
    ghost var t := table[boxStart..boxStart + boxSize];
    n := 0;
    var i := 0;
    while i < boxSize
      invariant 0 <= i <= boxSize
      invariant n == Total(t[..i])
    {
      n := n + table[boxStart + i].value;
      assert t[..i + 1][..i] == t[..i];
      i := i + 1;
    }
    assert t[..i] == t;
  }

  // ---- the colour map ------------------------------------------------------------------------

  /** `c` represents the colours `t`. */
  ghost predicate IsRep(c: Color, t: seq<Entry>, rep: Rep) {
    && t != [] && Total(t) > 0
    && forall n: nat | n < DEPTH :: Plane(c, n) as int == RepPlane(t, rep, n)
  }

  /** The choice among the three representatives for one box. */
  method Represent(b: Box, table: array<Entry>, methodForRep: Rep) returns (c: Color)
    requires 0 < b.colors && b.ind + b.colors <= table.Length && Populated(table[..])
    ensures IsRep(c, Slice(table[..], b), methodForRep)
  {
    hide Least, Greatest, PlaneSum, WeightedSum, Total, Plane;
    assert table[b.ind..b.ind + b.colors] == Slice(table[..], b);
    assert Populated(Slice(table[..], b));
    PopulatedTotal(Slice(table[..], b));
    c := Color(0, 0, 0);
    match methodForRep
    case RepCenterBox => c := CenterBox(b.ind, b.colors, table);
    case RepAverageColors => c := AverageColors(b.ind, b.colors, table);
    case RepAveragePixels => c := AveragePixels(b.ind, b.colors, table);
    case RepOther => BlackPlanes();
  }

  lemma BlackPlanes()
    ensures forall n: nat | n < DEPTH :: Plane(Color(0, 0, 0), n) == 0
  {
  }

  /** Every box is a non-empty piece of the table. */
  ghost predicate RealBoxes(bs: seq<Box>, n: nat) {
    forall b <- bs :: b.colors > 0 && b.ind + b.colors <= n
  }

  /** `colormapFromBv`. */
  method ColormapFromBv(newcolors: nat, bv: array<Box>, boxes: nat, table: array<Entry>, methodForRep: Rep)
    returns (colormap: array<Color>)
    requires boxes <= bv.Length && boxes <= newcolors && Populated(table[..])
    requires RealBoxes(bv[..boxes], table.Length)
    ensures fresh(colormap) && colormap.Length == newcolors
    ensures forall bi :: 0 <= bi < boxes ==> IsRep(colormap[bi], Slice(table[..], bv[bi]), methodForRep)
    ensures forall i :: boxes <= i < newcolors ==> colormap[i] == Color(0, 0, 0)
  {
    hide IsRep, Slice, Populated;
    colormap := new Color[newcolors](_ => Color(0, 0, 0));
    var bi := 0;
    while bi < boxes
      invariant 0 <= bi <= boxes
      invariant forall i :: 0 <= i < bi ==> IsRep(colormap[i], Slice(table[..], bv[i]), methodForRep)
      invariant forall i :: bi <= i < newcolors ==> colormap[i] == Color(0, 0, 0)
    {
      assert bv[bi] in bv[..boxes];
      var c := Represent(bv[bi], table, methodForRep);
      colormap[bi] := c;
      bi := bi + 1;
    }
  }

  /** The boxes of the invariant are real. */
  lemma BoxesAreReal(hist: seq<Entry>, t: seq<Entry>, bs: seq<Box>, ord: seq<Box>)
    requires CutInv(hist, t, bs, ord)
    ensures RealBoxes(bs, |t|)
  {
    forall b | b in bs
      ensures b.colors > 0 && b.ind + b.colors <= |t|
    {
      var bi :| 0 <= bi < |bs| && bs[bi] == b;
      var j := Find(bs, ord, bi);
      TilingInside(ord, |t|, j);
    }
  }

  lemma PopulatedPermuted(a: seq<Entry>, b: seq<Entry>)
    requires multiset(a) == multiset(b) && Populated(a)
    ensures Populated(b)
  {
    forall e | e in b
      ensures e.value > 0
    {
      assert e in multiset(b);
      assert e in a;
    }
  }

  /** `palette` consists of exactly one representative for each box of an arrangement that the cut reaches. */
  ghost predicate FromBoxes(palette: seq<Color>, hist: seq<Entry>, largest: Largest, a: Arrangement, rep: Rep) {
    && Reachable(largest, hist, a) && RealBoxes(a.boxes, |a.table|)
    && |palette| == |a.boxes|
    && forall i :: 0 <= i < |a.boxes| ==> a.boxes[i] in a.boxes && IsRep(palette[i], Slice(a.table, a.boxes[i]), rep)
  }

  ghost predicate MedianCutPalette(palette: seq<Color>, hist: seq<Entry>, largest: Largest, rep: Rep) {
    exists a :: FromBoxes(palette, hist, largest, a, rep)
  }

  /** `mediancut`, called as its caller does: with more colours than are requested. */
  method Mediancut(table: array<Entry>, newcolors: nat, methodForLargest: Largest, methodForRep: Rep)
    returns (status: SplitStatus, colormap: array<Color>)
    requires 1 <= newcolors < table.Length && Populated(table[..])
    modifies table
    ensures fresh(colormap)
    ensures status == SplitLogicError ==> methodForLargest == LargeOther
    ensures status == SplitOk ==>
              colormap.Length == newcolors
                  && MedianCutPalette(colormap[..], old(table[..]), methodForLargest, methodForRep)
  {
    hide CutInv, IsRep, Slice, RealBoxes, Populated, Reachable;
    ghost var hist, ord := table[..], [];
    var bv, boxes;
    status, bv, boxes, ord := CutBoxes(table, newcolors, methodForLargest);
    if status != SplitOk {
      colormap := new Color[0];
      return;
    }
    ghost var t, bs := table[..], bv[..boxes];
    BoxesAreReal(hist, t, bs, ord);
    PopulatedPermuted(hist, t) by { InvMultiset(hist, t, bs, ord); }
    colormap := ColormapFromBv(newcolors, bv, boxes, table, methodForRep);
    assert FromBoxes(colormap[..], hist, methodForLargest, Arrangement(t, bs), methodForRep);
  }

  lemma InvMultiset(hist: seq<Entry>, t: seq<Entry>, bs: seq<Box>, ord: seq<Box>)
    requires CutInv(hist, t, bs, ord)
    ensures multiset(t) == multiset(hist)
  {
  }
}
