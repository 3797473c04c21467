/** Heckbert's median cut over one shared, re-sorted table and a re-sorted box vector. */
module MedianCut {
  import opened CArithmetic
  import opened Colors
  import opened Histogram
  import opened Boxes
  import opened Planes
  import opened Sorting

  ghost predicate Descending(bs: seq<Box>) {
    forall i, j :: 0 <= i < j < |bs| ==> bs[i].sum >= bs[j].sum
  }

  /**
    The invariant of the cut.  The table is a permutation of the histogram; the
    boxes, put in table order, tile it; every box knows its total; and the box
    vector is in descending order of totals.
   */
  ghost predicate CutInv(hist: seq<Entry>, t: seq<Entry>, bs: seq<Box>, ord: seq<Box>) {
    && multiset(t) == multiset(hist)
    && multiset(bs) == multiset(ord)
    && Tiling(ord, |t|)
    && (forall b <- ord :: SumOk(t, b))
    && Descending(bs)
  }

  // ---- one split, on values -------------------------------------------------------------

  /** `t2` is `t` with the entries of `b` permuted. */
  ghost predicate PermutedInside(t: seq<Entry>, t2: seq<Entry>, b: Box) {
    && |t2| == |t| && b.ind + b.colors <= |t|
    && t2[..b.ind] == t[..b.ind] && t2[b.ind + b.colors..] == t[b.ind + b.colors..]
    && multiset(Slice(t2, b)) == multiset(Slice(t, b))
  }

  lemma PermutedWhole(t: seq<Entry>, t2: seq<Entry>, b: Box)
    requires PermutedInside(t, t2, b)
    ensures multiset(t2) == multiset(t)
  {
    assert t == t[..b.ind] + Slice(t, b) + t[b.ind + b.colors..];
    assert t2 == t2[..b.ind] + Slice(t2, b) + t2[b.ind + b.colors..];
  }

  /** Boxes outside the permuted one keep their totals. */
  lemma OutsideKept(t: seq<Entry>, t2: seq<Entry>, b: Box, c: Box)
    requires PermutedInside(t, t2, b) && SumOk(t, c)
    requires c.ind + c.colors <= b.ind || b.ind + b.colors <= c.ind
    ensures SumOk(t2, c)
  {
    if c.ind + c.colors <= b.ind {
      PrefixSlice(t, b.ind, c.ind, c.ind + c.colors);
      PrefixSlice(t2, b.ind, c.ind, c.ind + c.colors);
    } else {
      SuffixSlice(t, b.ind + b.colors, c.ind, c.ind + c.colors);
      SuffixSlice(t2, b.ind + b.colors, c.ind, c.ind + c.colors);
    }
  }

  lemma PrefixSlice(t: seq<Entry>, k: nat, i: nat, j: nat)
    requires i <= j <= k <= |t|
    ensures t[i..j] == t[..k][i..j]
  {
  }

  lemma SuffixSlice(t: seq<Entry>, e: nat, i: nat, j: nat)
    requires e <= i <= j <= |t|
    ensures t[i..j] == t[e..][i - e..j - e]
  {
  }

  function LowerBox(b: Box, cut: nat, lowersum: nat): Box {
    Box(b.ind, cut, lowersum)
  }

  function UpperBox(b: Box, cut: nat, lowersum: nat): Box
    requires cut <= b.colors && lowersum <= b.sum
  {
    Box(b.ind + cut, b.colors - cut, b.sum - lowersum)
  }

  /** The two halves account for the whole box. */
  lemma HalvesSum(t: seq<Entry>, t2: seq<Entry>, b: Box, cut: nat)
    requires PermutedInside(t, t2, b) && SumOk(t, b) && 0 < cut < b.colors
    ensures var lowersum := Total(t2[b.ind..b.ind + cut]);
            && lowersum <= b.sum
            && SumOk(t2, LowerBox(b, cut, lowersum)) && SumOk(t2, UpperBox(b, cut, lowersum))
  {
    hide Total;
    var low, high := t2[b.ind..b.ind + cut], t2[b.ind + cut..b.ind + b.colors];
    assert Slice(t2, b) == low + high;
    TotalConcat(low, high);
    TotalPermuted(Slice(t, b), Slice(t2, b));
  }

  /** The table order after the split of box `j`. */
  function Replace(ord: seq<Box>, j: nat, lo: Box, hi: Box): seq<Box>
    requires j < |ord|
  {
    ord[..j] + [lo, hi] + ord[j + 1..]
  }

  lemma ReplaceTiles(ord: seq<Box>, n: nat, j: nat, lo: Box, hi: Box)
    requires Tiling(ord, n) && j < |ord| && lo.colors > 0 && hi.colors > 0
    requires lo.ind == ord[j].ind && lo.ind + lo.colors == hi.ind && hi.ind + hi.colors == ord[j].ind + ord[j].colors
    ensures Tiling(Replace(ord, j, lo, hi), n)
  {
    hide Replace;
    var r := Replace(ord, j, lo, hi);
    ReplaceAt(ord, j, lo, hi, 0);
    ReplaceAt(ord, j, lo, hi, |ord|);
    forall i | 0 <= i < |r|
      ensures r[i].colors > 0
    {
      ReplaceAt(ord, j, lo, hi, i);
    }
    forall i | 0 < i < |r|
      ensures r[i - 1].ind + r[i - 1].colors == r[i].ind
    {
      ReplaceAt(ord, j, lo, hi, i - 1);
      ReplaceAt(ord, j, lo, hi, i);
      var k := i - 1;
      assert 0 < k < |ord| ==> ord[k - 1].ind + ord[k - 1].colors == ord[k].ind;
    }
  }

  lemma ReplaceAt(ord: seq<Box>, j: nat, lo: Box, hi: Box, i: nat)
    requires j < |ord| && i <= |ord|
    ensures |Replace(ord, j, lo, hi)| == |ord| + 1
    ensures Replace(ord, j, lo, hi)[i] ==
            if i < j then ord[i] else if i == j then lo else if i == j + 1 then hi else ord[i - 1]
  {
  }

  lemma ReplaceElements(bs: seq<Box>, bi: nat, ord: seq<Box>, j: nat, lo: Box, hi: Box)
    requires multiset(bs) == multiset(ord) && bi < |bs| && j < |ord| && bs[bi] == ord[j]
    ensures multiset(bs[bi := lo] + [hi]) == multiset(Replace(ord, j, lo, hi))
  {
    SplitAt(ord, j);
    SplitAt(bs, bi);
    SplitAt(bs[bi := lo], bi);
    assert bs[bi := lo][..bi] == bs[..bi] && bs[bi := lo][bi + 1..] == bs[bi + 1..];
    Cancel(multiset(bs[..bi]) + multiset(bs[bi + 1..]), multiset(ord[..j]) + multiset(ord[j + 1..]), bs[bi]);
  }

  lemma SplitAt(s: seq<Box>, i: nat)
    requires i < |s|
    ensures multiset(s) == multiset(s[..i]) + multiset(s[i + 1..]) + multiset{s[i]}
  {
    assert s == s[..i] + [s[i]] + s[i + 1..];
  }

  lemma Cancel(a: multiset<Box>, b: multiset<Box>, x: Box)
    requires a + multiset{x} == b + multiset{x}
    ensures a == b
  {
    assert a == (a + multiset{x}) - multiset{x};
    assert b == (b + multiset{x}) - multiset{x};
  }

  /** Every box of the new order has the right total. */
  lemma ReplaceSums(t: seq<Entry>, t2: seq<Entry>, ord: seq<Box>, j: nat, lo: Box, hi: Box)
    requires Tiling(ord, |t|) && j < |ord| && PermutedInside(t, t2, ord[j])
    requires (forall b <- ord :: SumOk(t, b)) && SumOk(t2, lo) && SumOk(t2, hi)
    ensures forall b <- Replace(ord, j, lo, hi) :: SumOk(t2, b)
  {
    forall i: nat | i < |ord| && i != j
      ensures SumOk(t2, ord[i])
    {
      if i < j {
        TilingOrder(ord, |t|, i, j);
      } else {
        TilingOrder(ord, |t|, j, i);
      }
      OutsideKept(t, t2, ord[j], ord[i]);
    }
    forall b | b in Replace(ord, j, lo, hi)
      ensures SumOk(t2, b)
    {
      if b != lo && b != hi {
        assert b in ord[..j] || b in ord[j + 1..];
        var i: nat :| i < |ord| && i != j && ord[i] == b;
      }
    }
  }

  /** `lo` and `hi` divide the interval of `b`. */
  predicate Divides(b: Box, lo: Box, hi: Box) {
    && lo.colors > 0 && hi.colors > 0
    && lo.ind == b.ind && lo.ind + lo.colors == hi.ind && hi.ind + hi.colors == b.ind + b.colors
  }

  /** Splitting a box keeps the invariant, whatever sorts the box vector afterwards. */
  lemma SplitKeepsInv(hist: seq<Entry>, t: seq<Entry>, t2: seq<Entry>, bs: seq<Box>, bs2: seq<Box>, ord: seq<Box>,
                      bi: nat, lo: Box, hi: Box)
    returns (ord2: seq<Box>)
    requires CutInv(hist, t, bs, ord) && bi < |bs| && PermutedInside(t, t2, bs[bi])
    requires Divides(bs[bi], lo, hi) && SumOk(t2, lo) && SumOk(t2, hi)
    requires multiset(bs2) == multiset(bs[bi := lo] + [hi]) && Descending(bs2)
    ensures CutInv(hist, t2, bs2, ord2)
  {
    hide Tiling, SumOk, Descending, Replace;
    var j := Find(bs, ord, bi);
    ord2 := Replace(ord, j, lo, hi);
    PermutedWhole(t, t2, bs[bi]);
    ReplaceTiles(ord, |t|, j, lo, hi);
    ReplaceElements(bs, bi, ord, j, lo, hi);
    ReplaceSums(t, t2, ord, j, lo, hi);
  }

  lemma Find(bs: seq<Box>, ord: seq<Box>, bi: nat) returns (j: nat)
    requires multiset(bs) == multiset(ord) && bi < |bs|
    ensures j < |ord| && ord[j] == bs[bi]
  {
    assert bs[bi] in multiset(bs);
    assert bs[bi] in ord;
    j :| j < |ord| && ord[j] == bs[bi];
  }

  // ---- one split, in place ----------------------------------------------------------------

  /** What a split of box `b` by `largest` along `plane` at `cut` promises about the old and new table. */
  ghost predicate GoodSplit(largest: Largest, t: seq<Entry>, t2: seq<Entry>, b: Box, plane: nat, cut: nat) {
    && b.ind + b.colors <= |t| == |t2| && 0 < cut < b.colors
    // the plane has the largest spread, and the entries are sorted by it
    && PicksLargest(largest, Slice(t, b), plane)
    && (forall i, j :: 0 <= i <= j < b.colors ==>
          Plane(Slice(t2, b)[i].tuple, plane) <= Plane(Slice(t2, b)[j].tuple, plane))
    // the cut is the first place at which the lower half has half of the samples, if there is one
    && (cut < b.colors - 1 ==> Total(t2[b.ind..b.ind + cut]) >= b.sum / 2)
    && (cut > 1 ==> Total(t2[b.ind..b.ind + cut - 1]) < b.sum / 2)
  }

  datatype SplitStatus = SplitOk | SplitLogicError

  /** The scan for the median. */
  method FindMedian(table: array<Entry>, boxStart: nat, boxSize: nat, sm: nat) returns (medianIndex: nat, lowersum: nat)
    requires boxSize >= 2 && boxStart + boxSize <= table.Length
    ensures 0 < medianIndex < boxSize
    ensures lowersum == Total(table[boxStart..boxStart + medianIndex])
    ensures medianIndex < boxSize - 1 ==> lowersum >= sm / 2
    ensures medianIndex > 1 ==> Total(table[boxStart..boxStart + medianIndex - 1]) < sm / 2
  {
    lowersum := table[boxStart].value;
    var i := 1;
    assert table[boxStart..boxStart + 1] == [table[boxStart]];
    while i < boxSize - 1 && lowersum < sm / 2
      invariant 1 <= i <= boxSize - 1
      invariant lowersum == Total(table[boxStart..boxStart + i])
      invariant i > 1 ==> Total(table[boxStart..boxStart + i - 1]) < sm / 2
    {
      lowersum := lowersum + table[boxStart + i].value;
      assert table[boxStart..boxStart + i + 1][..i] == table[boxStart..boxStart + i];
      i := i + 1;
    }
    medianIndex := i;
  }

  /** The plane to sort by, chosen from the boundaries of the box. */
  method ChoosePlane(table: array<Entry>, b: Box, methodForLargest: Largest) returns (largestDimension: nat)
    requires 0 < b.colors && b.ind + b.colors <= table.Length && methodForLargest != LargeOther
    ensures largestDimension < DEPTH
    ensures PicksLargest(methodForLargest, Slice(table[..], b), largestDimension)
  {
    hide Least, Greatest;
    var minval, maxval := new byte[16](_ => 0), new byte[16](_ => 0);
    FindBoxBoundaries(table, b.ind, b.colors, minval, maxval);
    assert table[b.ind..b.ind + b.colors] == Slice(table[..], b);
    if methodForLargest == LargeNorm {
      largestDimension := LargestByNorm(minval, maxval, Slice(table[..], b));
    } else {
      largestDimension := LargestByLuminosity(minval, maxval, Slice(table[..], b));
    }
  }

  /** The comparison `compareplane`, as a key. */
  function PlaneKey(plane: nat): Entry -> int
    requires plane < DEPTH
  {
    (e: Entry) => if plane < DEPTH then Plane(e.tuple, plane) as int else 0
  }

  /** The `qsort` over the entries of one box. */
  method SortBox(table: array<Entry>, b: Box, plane: nat)
    requires b.ind + b.colors <= table.Length && plane < DEPTH
    modifies table
    ensures PermutedInside(old(table[..]), table[..], b)
    ensures SortedBy(Slice(table[..], b), PlaneKey(plane))
  {
    QSort(table, b.ind, b.colors, PlaneKey(plane));
    assert table[b.ind..b.ind + b.colors] == Slice(table[..], b);
    assert old(table[b.ind..b.ind + b.colors]) == Slice(old(table[..]), b);
  }

  /** The comparison `sumcompare`, as a key. */
  function SumKey(): Box -> int {
    (c: Box) => -(c.sum as int)
  }

  lemma SortedMeansDescending(bs: seq<Box>)
    requires SortedBy(bs, SumKey())
    ensures Descending(bs)
  {
    forall i, j | 0 <= i < j < |bs|
      ensures bs[i].sum >= bs[j].sum
    {
      assert SumKey()(bs[i]) <= SumKey()(bs[j]);
    }
  }

  /** The value of an `unsigned int` after the cast to `int`. */
  function AsInt(u: nat): int {
    var v := u % 0x1_0000_0000;
    if v <= INT_MAX then v else v - 0x1_0000_0000
  }

  /** `sumcompare`, casts included. */
  function SumCompare(a: Box, b: Box): int { AsInt(b.sum) - AsInt(a.sum) }

  /** The sum of a box is at most the total of the histogram. */
  lemma BoxSumBounded(hist: seq<Entry>, t: seq<Entry>, bs: seq<Box>, ord: seq<Box>, b: Box)
    requires CutInv(hist, t, bs, ord) && b in bs
    ensures b.sum <= Total(hist)
  {
    hide Total, Tiling, Descending;
    var bi: nat :| bi < |bs| && bs[bi] == b;
    BoxInside(hist, t, bs, ord, bi);
    var front, back := t[..b.ind], t[b.ind + b.colors..];
    assert t == front + (Slice(t, b) + back);
    TotalConcat(front, Slice(t, b) + back);
    TotalConcat(Slice(t, b), back);
    TotalPermuted(hist, t);
  }

  /**
    For the boxes of a sampled histogram no cast and no difference of
    `sumcompare` leaves the range of `int`, and its sign orders them by
    descending sum.
   */
  lemma SumCompareOrders(hs: seq<int>, t: seq<Entry>, bs: seq<Box>, ord: seq<Box>, a: Box, b: Box)
    requires forall h :: h in hs ==> 0 <= h < BUCKETS
    requires CutInv(Table(hs), t, bs, ord) && a in bs && b in bs
    ensures AsInt(a.sum) == a.sum && -INT_MAX <= SumCompare(a, b) <= INT_MAX
    ensures SumCompare(a, b) < 0 <==> SumKey()(a) < SumKey()(b)
    ensures SumCompare(a, b) == 0 <==> SumKey()(a) == SumKey()(b)
  {
    hide CutInv, Total, Table;
    BoxSumBounded(Table(hs), t, bs, ord, a);
    BoxSumBounded(Table(hs), t, bs, ord, b);
    TotalFitsInt(hs);
  }

  /** The two new boxes written to the vector, and the `qsort` by `sumcompare`. */
  method StoreHalves(bv: array<Box>, boxes: nat, bi: nat, lo: Box, hi: Box)
    requires bi < boxes < bv.Length
    modifies bv
    ensures multiset(bv[..boxes + 1]) == multiset(old(bv[..boxes])[bi := lo] + [hi])
    ensures Descending(bv[..boxes + 1])
  {
    hide *;
    WriteHalves(bv, boxes, bi, lo, hi);
    ghost var stored := bv[..boxes + 1];
    assert bv[0..0 + (boxes + 1)] == stored;
    QSort(bv, 0, boxes + 1, SumKey());
    assert bv[0..0 + (boxes + 1)] == bv[..boxes + 1];
    SortedMeansDescending(bv[..boxes + 1]);
  }

  /** The lower half in place of the box, and the upper half at the end. */
  method WriteHalves(bv: array<Box>, boxes: nat, bi: nat, lo: Box, hi: Box)
    requires bi < boxes < bv.Length
    modifies bv
    ensures bv[..boxes + 1] == old(bv[..boxes])[bi := lo] + [hi]
  {
    bv[bi] := lo;
    bv[boxes] := hi;
  }

  /** The shared table and the vector of the boxes made so far. */
  datatype Arrangement = Arrangement(table: seq<Entry>, boxes: seq<Box>)

  /** Box number `bi` is cut after its first `cut` colours, in the order of `plane`. */
  datatype Split = Split(bi: nat, plane: nat, cut: nat)

  /**
    The effect of `splitBox`: only the entries of the box move, the box gives way
    to its two halves, every other box stays as it is, and the vector is sorted.
   */
  ghost predicate SplitsInto(largest: Largest, a: Arrangement, s: Split, b: Arrangement) {
    && s.bi < |a.boxes|
    && var box := a.boxes[s.bi];
    && GoodSplit(largest, a.table, b.table, box, s.plane, s.cut)
    && PermutedInside(a.table, b.table, box)
    && var lowersum := Total(b.table[box.ind..box.ind + s.cut]);
    && lowersum <= box.sum
    && multiset(b.boxes) == multiset(a.boxes[s.bi := LowerBox(box, s.cut, lowersum)] + [UpperBox(box, s.cut, lowersum)])
    && Descending(b.boxes)
  }

  /** `splitBox`. */
  method SplitBox(ghost hist: seq<Entry>, ghost ord: seq<Box>, bv: array<Box>, boxes: nat, bi: nat,
                  table: array<Entry>, methodForLargest: Largest)
    returns (status: SplitStatus, boxes': nat, ghost ord': seq<Box>, ghost split: Split)
    requires bi < boxes < bv.Length && bv[bi].colors >= 2
    requires bv as object != table
    requires CutInv(hist, table[..], bv[..boxes], ord)
    modifies bv, table
    ensures status == SplitLogicError <==> methodForLargest == LargeOther
    ensures status == SplitLogicError ==> bv[..] == old(bv[..]) && table[..] == old(table[..])
    ensures status == SplitOk ==>
              && boxes' == boxes + 1
              && CutInv(hist, table[..], bv[..boxes'], ord')
              && split.bi == bi
              && SplitsInto(methodForLargest, Arrangement(old(table[..]), old(bv[..boxes])), split,
                            Arrangement(table[..], bv[..boxes']))
  {
    hide *;
    boxes', ord', split := boxes, ord, Split(bi, 0, 0);
    if methodForLargest == LargeOther {
      status := SplitLogicError;
      return;
    }
    var b := bv[bi];
    ghost var t, bs := table[..], bv[..boxes];
    assert b == bs[bi];
    BoxInside(hist, t, bs, ord, bi);
    var plane, medianIndex, lowersum := SortAndCut(table, b, methodForLargest);
    assert lowersum <= b.sum by { HalvesSum(t, table[..], b, medianIndex); }
    ghost var t2 := table[..];
    StoreHalves(bv, boxes, bi, LowerBox(b, medianIndex, lowersum), UpperBox(b, medianIndex, lowersum));
    boxes' := boxes + 1;
    assert table[..] == t2;
    status, split := SplitOk, Split(bi, plane, medianIndex);
    ord' := SplitDone(hist, methodForLargest, Arrangement(t, bs), split, Arrangement(t2, bv[..boxes']), ord, lowersum);
  }

  /** Once the box is sorted and cut and its halves are stored, the split is done and the invariant is kept. */
  lemma SplitDone(hist: seq<Entry>, largest: Largest, a: Arrangement, s: Split, b: Arrangement, ord: seq<Box>,
                  lowersum: nat)
    returns (ord2: seq<Box>)
    requires CutInv(hist, a.table, a.boxes, ord)
    requires s.bi < |a.boxes| && 0 < s.cut < a.boxes[s.bi].colors && lowersum <= a.boxes[s.bi].sum
    requires var box := a.boxes[s.bi];
             && GoodSplit(largest, a.table, b.table, box, s.plane, s.cut)
             && PermutedInside(a.table, b.table, box)
             && lowersum == Total(b.table[box.ind..box.ind + s.cut])
             && multiset(b.boxes)
                == multiset(a.boxes[s.bi := LowerBox(box, s.cut, lowersum)] + [UpperBox(box, s.cut, lowersum)])
             && Descending(b.boxes)
    ensures CutInv(hist, b.table, b.boxes, ord2) && SplitsInto(largest, a, s, b)
  {
    hide CutInv, PermutedInside, SumOk, Descending, GoodSplit, Total, SplitsInto, Divides, LowerBox, UpperBox;
    SplitIsDone(largest, a, s, b, lowersum);
    ord2 := StepKeepsInv(largest, hist, a, s, b, ord);
  }

  lemma SplitIsDone(largest: Largest, a: Arrangement, s: Split, b: Arrangement, lowersum: nat)
    requires s.bi < |a.boxes| && s.cut <= a.boxes[s.bi].colors && lowersum <= a.boxes[s.bi].sum
    requires var box := a.boxes[s.bi];
             && GoodSplit(largest, a.table, b.table, box, s.plane, s.cut)
             && PermutedInside(a.table, b.table, box)
             && lowersum == Total(b.table[box.ind..box.ind + s.cut])
             && multiset(b.boxes)
                == multiset(a.boxes[s.bi := LowerBox(box, s.cut, lowersum)] + [UpperBox(box, s.cut, lowersum)])
             && Descending(b.boxes)
    ensures SplitsInto(largest, a, s, b)
  {
    hide Total, Descending, PermutedInside;
  }

  /** The part of `splitBox` that sorts the box along its largest plane and finds the median. */
  method SortAndCut(table: array<Entry>, b: Box, methodForLargest: Largest)
    returns (largestDimension: nat, medianIndex: nat, lowersum: nat)
    requires b.colors >= 2 && b.ind + b.colors <= table.Length && methodForLargest != LargeOther
    modifies table
    ensures PermutedInside(old(table[..]), table[..], b)
    ensures GoodSplit(methodForLargest, old(table[..]), table[..], b, largestDimension, medianIndex)
    ensures 0 < medianIndex < b.colors && lowersum == Total(table[..][b.ind..b.ind + medianIndex])
  {
    hide PermutedInside, PicksLargest, Slice, GoodSplit, Total, SortedBy;
    ghost var t := table[..];
    largestDimension := ChoosePlane(table, b, methodForLargest);
    SortBox(table, b, largestDimension);
    medianIndex, lowersum := FindMedian(table, b.ind, b.colors, b.sum);
    ghost var t2 := table[..];
    assert t2[b.ind..b.ind + medianIndex] == table[b.ind..b.ind + medianIndex];
    assert t2[b.ind..b.ind + medianIndex - 1] == table[b.ind..b.ind + medianIndex - 1];
    SplitIsGood(methodForLargest, t, t2, b, largestDimension, medianIndex);
  }

  lemma SplitIsGood(m: Largest, t: seq<Entry>, t2: seq<Entry>, b: Box, plane: nat, cut: nat)
    requires b.ind + b.colors <= |t| == |t2| && 0 < cut < b.colors && plane < DEPTH
    requires PicksLargest(m, Slice(t, b), plane) && SortedBy(Slice(t2, b), PlaneKey(plane))
    requires cut < b.colors - 1 ==> Total(t2[b.ind..b.ind + cut]) >= b.sum / 2
    requires cut > 1 ==> Total(t2[b.ind..b.ind + cut - 1]) < b.sum / 2
    ensures GoodSplit(m, t, t2, b, plane, cut)
  {
    hide PicksLargest, Total, Plane;
    var s := Slice(t2, b);
    forall i, j | 0 <= i <= j < b.colors
      ensures Plane(s[i].tuple, plane) <= Plane(s[j].tuple, plane)
    {
      assert PlaneKey(plane)(s[i]) <= PlaneKey(plane)(s[j]);
    }
  }

  lemma BoxInside(hist: seq<Entry>, t: seq<Entry>, bs: seq<Box>, ord: seq<Box>, bi: nat)
    requires CutInv(hist, t, bs, ord) && bi < |bs|
    ensures bs[bi].ind + bs[bi].colors <= |t| && SumOk(t, bs[bi])
  {
    var j := Find(bs, ord, bi);
    assert ord[j] in ord;
    TilingInside(ord, |t|, j);
  }

  // ---- the whole cut ------------------------------------------------------------------------

  /** The first box that can still be split, or the number of boxes. */
  ghost predicate FirstSplittable(bs: seq<Box>, bi: nat) {
    && bi <= |bs|
    && (forall i :: 0 <= i < bi ==> bs[i].colors < 2)
    && (bi < |bs| ==> bs[bi].colors >= 2)
  }

  /** In a descending vector the box that is split next has the largest total among the splittable ones. */
  lemma SplitsLargest(bs: seq<Box>, bi: nat)
    requires Descending(bs) && FirstSplittable(bs, bi) && bi < |bs|
    ensures forall c <- bs :: c.colors >= 2 ==> c.sum <= bs[bi].sum
  {
    forall c | c in bs && c.colors >= 2
      ensures c.sum <= bs[bi].sum
    {
      var i: nat :| i < |bs| && bs[i] == c;
      if i != bi {
        assert bi < i;
      }
    }
  }

  /** If no box can be split, there are as many boxes as colours. */
  lemma AllSingletons(hist: seq<Entry>, t: seq<Entry>, bs: seq<Box>, ord: seq<Box>)
    requires CutInv(hist, t, bs, ord) && FirstSplittable(bs, |bs|)
    ensures |bs| == |t|
  {
    forall b | b in ord
      ensures b.colors == 1
    {
      assert b in multiset(bs);
      assert b in bs;
    }
    SingletonTiling(ord, |t|, |ord| - 1);
    assert |bs| == |multiset(bs)| == |multiset(ord)| == |ord|;
  }

  /** There are never more boxes than colours. */
  lemma BoxesFit(hist: seq<Entry>, t: seq<Entry>, bs: seq<Box>, ord: seq<Box>)
    requires CutInv(hist, t, bs, ord)
    ensures |bs| <= |t|
  {
    TilingLength(ord, |t|, |ord| - 1);
    assert |bs| == |multiset(bs)| == |multiset(ord)| == |ord|;
  }

  /** The initial box. */
  lemma InitialInv(t: seq<Entry>)
    requires t != []
    ensures CutInv(t, t, [Box(0, |t|, Total(t))], [Box(0, |t|, Total(t))])
  {
    var b := Box(0, |t|, Total(t));
    assert Slice(t, b) == t;
  }

  // ---- runs of the cut ----------------------------------------------------------------------

  /** One round of the main loop: the first box with two or more colours is split. */
  ghost predicate CutStep(largest: Largest, a: Arrangement, s: Split, b: Arrangement) {
    FirstSplittable(a.boxes, s.bi) && SplitsInto(largest, a, s, b)
  }

  function Initial(hist: seq<Entry>): Arrangement { Arrangement(hist, [Box(0, |hist|, Total(hist))]) }

  ghost predicate CutRun(largest: Largest, hist: seq<Entry>, run: seq<Arrangement>, splits: seq<Split>) {
    && |run| == |splits| + 1 && run[0] == Initial(hist)
    && forall i: nat | i < |splits| :: CutStep(largest, run[i], splits[i], run[i + 1])
  }

  /** What any number of rounds can make of the histogram. */
  ghost predicate Reachable(largest: Largest, hist: seq<Entry>, a: Arrangement) {
    exists run, splits :: CutRun(largest, hist, run, splits) && run[|run| - 1] == a
  }

  lemma ReachInitial(largest: Largest, hist: seq<Entry>)
    ensures Reachable(largest, hist, Initial(hist))
  {
    var run, splits := [Initial(hist)], [];
    assert CutRun(largest, hist, run, splits);
    assert run[|run| - 1] == Initial(hist);
  }

  lemma ReachNext(largest: Largest, hist: seq<Entry>, a: Arrangement, s: Split, b: Arrangement)
    requires Reachable(largest, hist, a) && CutStep(largest, a, s, b)
    ensures Reachable(largest, hist, b)
  {
    hide CutStep;
    var run, splits :| CutRun(largest, hist, run, splits) && run[|run| - 1] == a;
    var run', splits' := run + [b], splits + [s];
    forall i: nat | i < |splits'| ensures CutStep(largest, run'[i], splits'[i], run'[i + 1]) {
      if i < |splits| {
        assert CutStep(largest, run[i], splits[i], run[i + 1]);
      }
    }
    assert CutRun(largest, hist, run', splits') && run'[|run'| - 1] == b;
  }

  /** One round keeps the invariant. */
  lemma StepKeepsInv(largest: Largest, hist: seq<Entry>, a: Arrangement, s: Split, b: Arrangement, ord: seq<Box>)
    returns (ord2: seq<Box>)
    requires CutInv(hist, a.table, a.boxes, ord) && SplitsInto(largest, a, s, b)
    ensures CutInv(hist, b.table, b.boxes, ord2) && |b.boxes| == |a.boxes| + 1
  {
    hide CutInv, PermutedInside, SumOk, PicksLargest, Slice, Descending, Total;
    var box := a.boxes[s.bi];
    BoxInside(hist, a.table, a.boxes, ord, s.bi);
    HalvesSum(a.table, b.table, box, s.cut);
    var lowersum := Total(b.table[box.ind..box.ind + s.cut]);
    ord2 := SplitKeepsInv(hist, a.table, b.table, a.boxes, b.boxes, ord, s.bi,
                          LowerBox(box, s.cut, lowersum), UpperBox(box, s.cut, lowersum));
    OneMore(a.boxes[s.bi := LowerBox(box, s.cut, lowersum)], UpperBox(box, s.cut, lowersum), b.boxes);
  }

  lemma OneMore(xs: seq<Box>, x: Box, ys: seq<Box>)
    requires multiset(ys) == multiset(xs + [x])
    ensures |ys| == |xs| + 1
  {
    assert |multiset(ys)| == |multiset(xs + [x])|;
  }

  /**
    The median-cut invariant over every run: however often boxes were split, the
    table is a permutation of the histogram, the boxes tile it, know their totals
    and are in descending order.
   */
  lemma {:induction false} RunKeepsInv(largest: Largest, hist: seq<Entry>, run: seq<Arrangement>, splits: seq<Split>,
                                       i: nat)
    returns (ord: seq<Box>)
    requires hist != [] && CutRun(largest, hist, run, splits) && i < |run|
    ensures CutInv(hist, run[i].table, run[i].boxes, ord) && |run[i].boxes| == i + 1
    decreases i
  {
    hide CutInv, SplitsInto, FirstSplittable, Total;
    if i == 0 {
      ord := [Box(0, |hist|, Total(hist))];
      InitialInv(hist);
    } else {
      ord := RunKeepsInv(largest, hist, run, splits, i - 1);
      assert CutStep(largest, run[i - 1], splits[i - 1], run[i - 1 + 1]);
      ord := StepKeepsInv(largest, hist, run[i - 1], splits[i - 1], run[i], ord);
    }
  }

  lemma ReachableInv(largest: Largest, hist: seq<Entry>, a: Arrangement) returns (ord: seq<Box>)
    requires hist != [] && Reachable(largest, hist, a)
    ensures CutInv(hist, a.table, a.boxes, ord)
  {
    hide CutInv, CutStep;
    var run, splits :| CutRun(largest, hist, run, splits) && run[|run| - 1] == a;
    ord := RunKeepsInv(largest, hist, run, splits, |run| - 1);
  }

  /**
    The main loop of `mediancut`: it ends with `newcolors` boxes, or with one box
    per colour if there are fewer colours than that, in an arrangement that a
    run of the cut reaches.
   */
  method CutBoxes(table: array<Entry>, newcolors: nat, methodForLargest: Largest)
    returns (status: SplitStatus, bv: array<Box>, boxes: nat, ghost ord: seq<Box>)
    requires newcolors >= 1 && table.Length >= 1
    modifies table
    ensures fresh(bv)
    ensures status == SplitOk ==>
              && boxes == Min(newcolors, table.Length) && boxes <= bv.Length
              && CutInv(old(table[..]), table[..], bv[..boxes], ord)
              && Reachable(methodForLargest, old(table[..]), Arrangement(table[..], bv[..boxes]))
    ensures status == SplitLogicError ==> methodForLargest == LargeOther
  {
    hide CutInv, Reachable, SplitsInto, Total;
    ghost var hist := table[..];
    var sum := SumValues(table);
    bv := new Box[newcolors](_ => Box(0, 0, 0));
    bv[0] := Box(0, table.Length, sum);
    boxes := 1;
    ord := [Box(0, table.Length, sum)];
    assert bv[..1] == ord;
    InitialInv(hist);
    ReachInitial(methodForLargest, hist);
    status := SplitOk;
    var multicolorBoxesExist := table.Length > 1;
    while boxes < newcolors && multicolorBoxesExist
      invariant 1 <= boxes <= newcolors == bv.Length && status == SplitOk
      invariant CutInv(hist, table[..], bv[..boxes], ord)
      invariant Reachable(methodForLargest, hist, Arrangement(table[..], bv[..boxes]))
      invariant !multicolorBoxesExist ==> boxes == table.Length
      decreases newcolors - boxes, multicolorBoxesExist
    {
      var bi := FindSplittable(bv, boxes);
      if bi >= boxes {
        AllSingletons(hist, table[..], bv[..boxes], ord);
        multicolorBoxesExist := false;
      } else {
        ghost var split;
        ghost var before := Arrangement(table[..], bv[..boxes]);
        status, boxes, ord, split := SplitBox(hist, ord, bv, boxes, bi, table, methodForLargest);
        if status != SplitOk {
          return;
        }
        ReachNext(methodForLargest, hist, before, split, Arrangement(table[..], bv[..boxes]));
      }
    }
    BoxesFit(hist, table[..], bv[..boxes], ord);
  }

  /** The search for the first splittable box. */
  method FindSplittable(bv: array<Box>, boxes: nat) returns (bi: nat)
    requires boxes <= bv.Length
    ensures FirstSplittable(bv[..boxes], bi)
  {
    bi := 0;
    while bi < boxes && bv[bi].colors < 2
      invariant 0 <= bi <= boxes
      invariant forall i :: 0 <= i < bi ==> bv[i].colors < 2
    {
      bi := bi + 1;
    }
  }

  /** The total of the whole table. */
  method SumValues(table: array<Entry>) returns (sum: nat)
    ensures sum == Total(table[..])
  {
    sum := 0;
    var i := 0;
    while i < table.Length
      invariant 0 <= i <= table.Length && sum == Total(table[..i])
    {
      sum := sum + table[i].value;
      assert table[..i + 1][..i] == table[..i];
      i := i + 1;
    }
    assert table[..i] == table[..];
  }

  /**
    Every split makes real progress.  If the histogram's colours are distinct,
    then in every reachable arrangement the box that is split next has the
    largest total of all boxes with two or more colours, and it is wider than a
    point in the chosen plane, the first one with the largest spread, or with the
    largest one weighted by luminosity.  Both halves are non-empty, no colour of
    the lower half exceeds one of the upper half in that plane, and the lower half
    is the smallest that has half of the samples, if that leaves an upper half.
   */
  lemma SplitMakesProgress(hist: seq<Entry>, largest: Largest, a: Arrangement, s: Split, b: Arrangement)
    requires hist != [] && DistinctTuples(hist) && largest != LargeOther
    requires Reachable(largest, hist, a) && CutStep(largest, a, s, b)
    ensures var box := a.boxes[s.bi];
            && (forall c <- a.boxes :: c.colors >= 2 ==> c.sum <= box.sum)
            && 0 < s.cut < box.colors && Width(Slice(a.table, box), s.plane) > 0
            && (forall i, j :: 0 <= i < s.cut <= j < box.colors ==>
                  Plane(Slice(b.table, box)[i].tuple, s.plane) <= Plane(Slice(b.table, box)[j].tuple, s.plane))
            && (s.cut < box.colors - 1 ==> 2 * Total(Slice(b.table, box)[..s.cut]) + 1 >= box.sum)
            && (s.cut > 1 ==> 2 * Total(Slice(b.table, box)[..s.cut - 1]) + 2 <= box.sum)
    ensures var weight := if largest == LargeNorm then [1, 1, 1] else [2989, 5866, 1145];
            var box := Slice(a.table, a.boxes[s.bi]);
            forall n: nat | n < 3 && n != s.plane ::
              var mine, its := weight[s.plane] * Width(box, s.plane), weight[n] * Width(box, n);
              if n < s.plane then its < mine else its <= mine
  {
    hide Least, Greatest, Tiling, Total, Reachable, SumOk, PermutedInside, Score;
    var ord := ReachableInv(largest, hist, a);
    SplitsLargest(a.boxes, s.bi);
    DistinctPermuted(hist, a.table);
    var box := a.boxes[s.bi];
    PositiveSpread(largest, Slice(a.table, box), s.plane);
    FirstOfSlice(b.table, box, s.cut);
    FirstOfSlice(b.table, box, s.cut - 1);
    PickedPlane(largest, Slice(a.table, box), s.plane);
  }

  lemma FirstOfSlice(t: seq<Entry>, b: Box, k: nat)
    requires b.ind + b.colors <= |t| && k <= b.colors
    ensures Slice(t, b)[..k] == t[b.ind..b.ind + k]
  {
  }
}
