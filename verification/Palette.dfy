/** From an image to its palette: `computeColorMapFromInput` and `sixel_quant_make_palette`. */
module Palette {
  import opened CArithmetic
  import opened Colors
  import opened FirstUses
  import opened Histogram
  import opened Boxes
  import opened Planes
  import opened MedianCut
  import opened ColorMap

  /** The histogram of a three-byte image. */
  function HistogramOf(data: seq<byte>, q: Quality): seq<Entry>
    requires |data| % DEPTH == 0
  {
    Table(Samples(data, |data| / DEPTH, q))
  }

  /** The colours of a table, in order. */
  function Tuples(t: seq<Entry>): (cs: seq<Color>)
    ensures |cs| == |t| && forall i :: 0 <= i < |t| ==> cs[i] == t[i].tuple
  {
    seq(|t|, i requires 0 <= i < |t| => t[i].tuple)
  }

  /**
    What a palette made from the histogram `hist` is: the histogram's own
    colours if they fit, and otherwise the representatives of a median cut.
   */
  ghost predicate PaletteFor(cs: seq<Color>, hist: seq<Entry>, reqColors: nat, largest: Largest, rep: Rep) {
    if |hist| <= reqColors then cs == Tuples(hist)
    else |cs| == reqColors && MedianCutPalette(cs, hist, largest, rep)
  }

  lemma TableIsPopulated(hs: seq<int>)
    requires forall h :: h in hs ==> 0 <= h < BUCKETS
    ensures Populated(Table(hs))
  {
    forall e | e in Table(hs)
      ensures e.value > 0
    {
      var i :| 0 <= i < |Table(hs)| && Table(hs)[i] == e;
      assert FirstUse(hs)[i] in hs;
    }
  }

  /** `computeColorMapFromInput`. */
  method ComputeColorMapFromInput(data: array<byte>, reqColors: nat, methodForLargest: Largest, methodForRep: Rep,
                                  qualityMode: Quality)
    returns (status: SplitStatus, colormap: array<Color>, origcolors: nat)
    requires data.Length % DEPTH == 0 && reqColors >= 1
    ensures fresh(colormap)
    ensures origcolors == |HistogramOf(data[..], qualityMode)|
    ensures status == SplitLogicError ==> methodForLargest == LargeOther && origcolors > reqColors
    ensures status == SplitOk ==>
            PaletteFor(colormap[..], HistogramOf(data[..], qualityMode), reqColors, methodForLargest, methodForRep)
  {
    hide Table, Samples, Populated, MedianCutPalette;
    var colorfreqtable := ComputeHistogram(data, data.Length, qualityMode);
    ghost var hist := colorfreqtable[..];
    origcolors := colorfreqtable.Length;
    if colorfreqtable.Length <= reqColors {
      colormap := new Color[colorfreqtable.Length](_ => Color(0, 0, 0));
      var i := 0;
      while i < colorfreqtable.Length
        invariant 0 <= i <= colorfreqtable.Length
        invariant forall k :: 0 <= k < i ==> colormap[k] == colorfreqtable[k].tuple
        invariant colorfreqtable[..] == hist
      {
        colormap[i] := colorfreqtable[i].tuple;
        i := i + 1;
      }
      assert colormap[..] == Tuples(hist);
      status := SplitOk;
    } else {
      TableIsPopulated(Samples(data[..], data.Length / DEPTH, qualityMode));
      status, colormap := Mediancut(colorfreqtable, reqColors, methodForLargest, methodForRep);
    }
  }

  /** The first `n` colours of a flat palette are `cs`. */
  ghost predicate Holds(pal: seq<byte>, cs: seq<Color>) {
    DEPTH * |cs| <= |pal| && forall k: nat | k < |cs| :: PixelAt(pal, k) == cs[k]
  }

  /** `sixel_quant_make_palette` for three-byte pixels. */
  method MakePalette(data: array<byte>, reqcolors: nat, methodForLargest: Largest, methodForRep: Rep,
                     qualityMode: Quality)
    returns (status: SplitStatus, result: array<byte>, ncolors: nat, origcolors: nat, ghost colors: seq<Color>)
    requires data.Length % DEPTH == 0 && reqcolors >= 1
    ensures fresh(result)
    ensures origcolors == |HistogramOf(data[..], qualityMode)|
    ensures status == SplitLogicError ==> methodForLargest == LargeOther && origcolors > reqcolors
    ensures status == SplitOk ==>
              && PaletteFor(colors, HistogramOf(data[..], qualityMode), reqcolors, methodForLargest, methodForRep)
              && ncolors == |colors| <= reqcolors && result.Length == DEPTH * ncolors && Holds(result[..], colors)
  {
    hide HistogramOf, MedianCutPalette, Tuples;
    var colormap;
    status, colormap, origcolors :=
      ComputeColorMapFromInput(data, reqcolors, methodForLargest, methodForRep, qualityMode);
    colors, ncolors, result := [], 0, new byte[0];
    if status != SplitOk {
      return;
    }
    colors := colormap[..];
    ncolors := colormap.Length;
    result := FlattenColors(colormap);
  }

  /** The loop that writes the colours out byte by byte. */
  method FlattenColors(colormap: array<Color>) returns (result: array<byte>)
    ensures fresh(result) && result.Length == DEPTH * colormap.Length
    ensures Holds(result[..], colormap[..])
  {
    result := new byte[DEPTH * colormap.Length](_ => 0);
    var i := 0;
    while i < colormap.Length
      invariant 0 <= i <= colormap.Length
      invariant forall k: nat | k < i :: PixelAt(result[..], k) == colormap[k]
    {
      ghost var before := result[..];
      result[i * DEPTH + 0] := Plane(colormap[i], 0);
      result[i * DEPTH + 1] := Plane(colormap[i], 1);
      result[i * DEPTH + 2] := Plane(colormap[i], 2);
      assert forall k: nat | k < i :: PixelAt(result[..], k) == PixelAt(before, k);
      i := i + 1;
    }
  }

  // ---- what every generated palette satisfies ------------------------------------------------

  /** Every component is at most 248, so no generated palette contains white. */
  ghost predicate Dim(c: Color) { c.c0 <= 248 && c.c1 <= 248 && c.c2 <= 248 }

  lemma TableIsDim(hs: seq<int>)
    requires forall h :: h in hs ==> 0 <= h < BUCKETS
    ensures forall e <- Table(hs) :: Dim(e.tuple)
  {
    forall e | e in Table(hs)
      ensures Dim(e.tuple)
    {
      var i :| 0 <= i < |Table(hs)| && Table(hs)[i] == e;
      assert FirstUse(hs)[i] in hs;
    }
  }

  lemma RepIsDim(c: Color, t: seq<Entry>, rep: Rep)
    requires IsRep(c, t, rep) && forall e <- t :: Dim(e.tuple)
    ensures Dim(c)
  {
    forall n: nat | n < DEPTH
      ensures Plane(c, n) <= 248
    {
      if rep != RepOther {
        RepInsideBox(t, rep, n);
        var i :| 0 <= i < |t| && Greatest(t, n) == Plane(t[i].tuple, n);
        assert t[i] in t;
      }
    }
    assert Plane(c, 0) == c.c0 && Plane(c, 1) == c.c1 && Plane(c, 2) == c.c2;
  }

  /** Every component of every generated palette is at most 248. */
  lemma PaletteIsDim(cs: seq<Color>, data: seq<byte>, q: Quality, reqColors: nat, largest: Largest, rep: Rep, k: nat)
    requires |data| % DEPTH == 0 && PaletteFor(cs, HistogramOf(data, q), reqColors, largest, rep) && k < |cs|
    ensures Dim(cs[k])
  {
    hide Table, IsRep, Reachable;
    var hist := HistogramOf(data, q);
    TableIsDim(Samples(data, |data| / DEPTH, q));
    if |hist| > reqColors {
      var a :| FromBoxes(cs, hist, largest, a, rep);
      var box := a.boxes[k];
      assert box in a.boxes;
      TableKept(hist, largest, a);
      forall e | e in Slice(a.table, box)
        ensures Dim(e.tuple)
      {
        assert e in a.table;
        assert e in multiset(a.table);
        assert e in hist;
      }
      RepIsDim(cs[k], Slice(a.table, box), rep);
    }
  }

  lemma TableKept(hist: seq<Entry>, largest: Largest, a: Arrangement)
    requires hist != [] && Reachable(largest, hist, a)
    ensures multiset(a.table) == multiset(hist)
  {
    hide Reachable, Tiling, SumOk, Descending;
    var ord := ReachableInv(largest, hist, a);
  }

  /** Each colour of a median-cut palette lies within the bounds of its own box. */
  lemma PaletteInsideBoxes(cs: seq<Color>, hist: seq<Entry>, largest: Largest, a: Arrangement, rep: Rep, k: nat, n: nat)
    requires FromBoxes(cs, hist, largest, a, rep) && k < |cs| && n < DEPTH && rep != RepOther
    ensures var s := Slice(a.table, a.boxes[k]);
            && a.boxes[k] in a.boxes && s != []
            && Least(s, n) <= Plane(cs[k], n) <= Greatest(s, n)
            && (rep == RepCenterBox ==> forall e <- s ::
                  Abs(Plane(e.tuple, n) as int - Plane(cs[k], n) as int) <= (Width(s, n) + 1) / 2)
  {
    hide Least, Greatest, Reachable;
    assert a.boxes[k] in a.boxes;
    var s := Slice(a.table, a.boxes[k]);
    RepInsideBox(s, rep, n);
    if rep == RepCenterBox {
      forall e | e in s
        ensures Abs(Plane(e.tuple, n) as int - Plane(cs[k], n) as int) <= (Width(s, n) + 1) / 2
      {
        CenterIsCentral(s, n, e);
      }
    }
  }

  /**
    Byte `n` of palette entry `k` is the midpoint of the box `s`, and so within
    half the spread, rounded up, of that component of every colour of the box.
   */
  ghost predicate CentralByte(pal: seq<byte>, k: nat, s: seq<Entry>, n: nat) {
    && n < 3 && 3 * k + n < |pal| && s != []
    && pal[3 * k + n] as int == (Least(s, n) + Greatest(s, n)) / 2
    && forall e <- s :: Abs(Plane(e.tuple, n) as int - pal[3 * k + n] as int) <= (Width(s, n) + 1) / 2
  }

  /**
    The first `count` entries of a flat palette are the midpoints of the boxes
    into which a median cut along the widest plane divides the histogram.
   */
  ghost predicate CentralPalette(pal: seq<byte>, count: int, hist: seq<Entry>) {
    exists a: Arrangement :: Reachable(LargeNorm, hist, a) && |a.boxes| == count && CentralBoxes(pal, a)
  }

  ghost predicate CentralBoxes(pal: seq<byte>, a: Arrangement) {
    forall k: nat, n: nat | k < |a.boxes| && n < 3 ::
      && a.boxes[k].ind + a.boxes[k].colors <= |a.table|
      && CentralByte(pal, k, Slice(a.table, a.boxes[k]), n)
  }

  /** The palettes that median cut makes with the default methods. */
  lemma DefaultIsCentral(pal: seq<byte>, cs: seq<Color>, hist: seq<Entry>, reqColors: nat)
    requires PaletteFor(cs, hist, reqColors, LargeNorm, RepCenterBox) && |hist| > reqColors && Holds(pal, cs)
    ensures CentralPalette(pal, |cs|, hist)
  {
    hide Reachable, IsRep, Slice, Holds, CentralByte;
    var a :| FromBoxes(cs, hist, LargeNorm, a, RepCenterBox);
    forall k: nat, n: nat | k < |a.boxes| && n < 3
      ensures a.boxes[k].ind + a.boxes[k].colors <= |a.table|
      ensures CentralByte(pal, k, Slice(a.table, a.boxes[k]), n)
    {
      BoxIsCentral(pal, cs, hist, a, k, n);
    }
    assert CentralBoxes(pal, a);
  }

  lemma BoxIsCentral(pal: seq<byte>, cs: seq<Color>, hist: seq<Entry>, a: Arrangement, k: nat, n: nat)
    requires FromBoxes(cs, hist, LargeNorm, a, RepCenterBox) && Holds(pal, cs) && k < |a.boxes| && n < 3
    ensures a.boxes[k].ind + a.boxes[k].colors <= |a.table|
    ensures CentralByte(pal, k, Slice(a.table, a.boxes[k]), n)
  {
    hide Reachable, IsRep, Least, Greatest, Slice, Holds, Plane;
    PaletteInsideBoxes(cs, hist, LargeNorm, a, RepCenterBox, k, n);
    CenterByte(pal, cs, k, Slice(a.table, a.boxes[k]), n);
  }

  lemma CenterByte(pal: seq<byte>, cs: seq<Color>, k: nat, s: seq<Entry>, n: nat)
    requires Holds(pal, cs) && k < |cs| && n < DEPTH && IsRep(cs[k], s, RepCenterBox)
    ensures 3 * k + n < |pal| && pal[3 * k + n] == Plane(cs[k], n)
    ensures pal[3 * k + n] as int == (Least(s, n) + Greatest(s, n)) / 2
  {
    hide Least, Greatest;
    assert PixelAt(pal, k) == cs[k];
  }
}
