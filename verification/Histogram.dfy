/** `computeHistogram`: the sampled 15-bit histogram and the tuple table made from it. */
module Histogram {
  import opened CArithmetic
  import opened Colors
  import opened FirstUses

  /** A colour together with the number of samples it stands for. */
  datatype Entry = Entry(value: nat, tuple: Color)

  datatype Quality = QualityAuto | QualityHigh | QualityLow | QualityFull | QualityHighColor

  function MaxSample(q: Quality): nat {
    match q
    case QualityLow => 18383
    case QualityHigh => 1118383
    case _ => 4003079
  }

  /** The distance between samples, in pixels. */
  function Stride(pixels: nat, maxSample: nat): (r: nat)
    requires maxSample > 0
    ensures r > 0
  {
    if pixels / maxSample == 0 then 1 else pixels / maxSample
  }

  function SampleCount(pixels: nat, stride: nat): nat
    requires stride > 0
  {
    if pixels == 0 then 0 else (pixels - 1) / stride + 1
  }

  lemma SampleInside(pixels: nat, stride: nat, k: nat)
    requires stride > 0 && k < SampleCount(pixels, stride)
    ensures k * stride < pixels
  {
    var m := (pixels - 1) / stride;
    assert m * stride <= pixels - 1;
    assert k * stride <= m * stride by { assert (m - k) * stride >= 0; }
  }

  /** The loop over samples stops after exactly `SampleCount` of them. */
  lemma SampleOutside(pixels: nat, stride: nat, k: nat)
    requires stride > 0 && k <= SampleCount(pixels, stride) && k * stride >= pixels
    ensures k == SampleCount(pixels, stride)
  {
    CountBelow(pixels, stride, k);
  }

  lemma CountBelow(pixels: nat, stride: nat, k: nat)
    requires stride > 0 && k * stride >= pixels
    ensures SampleCount(pixels, stride) <= k
  {
    if k < SampleCount(pixels, stride) {
      SampleInside(pixels, stride, k);
    }
  }

  /** The buckets of the first `k` samples. */
  function Sampled(data: seq<byte>, stride: nat, k: nat): (hs: seq<int>)
    requires k > 0 ==> DEPTH * ((k - 1) * stride) + 2 < |data|
    ensures |hs| == k
    ensures forall h :: h in hs ==> 0 <= h < BUCKETS
  {
    if k == 0 then [] else
    assert k > 1 ==> (k - 2) * stride <= (k - 1) * stride;
    Sampled(data, stride, k - 1) + [Hash(PixelAt(data, (k - 1) * stride))]
  }

  lemma SampledNext(data: seq<byte>, pixels: nat, stride: nat, k: nat, p: nat)
    requires stride > 0 && |data| == DEPTH * pixels && p == k * stride < pixels && k <= SampleCount(pixels, stride)
    requires k > 0 ==> DEPTH * ((k - 1) * stride) + 2 < |data|
    ensures Sampled(data, stride, k + 1) == Sampled(data, stride, k) + [Hash(PixelAt(data, p))]
    ensures p + stride == (k + 1) * stride
    ensures k + 1 <= SampleCount(pixels, stride)
  {
    if k == SampleCount(pixels, stride) {
      CountCovers(pixels, stride);
    }
  }

  lemma CountCovers(pixels: nat, stride: nat)
    requires stride > 0
    ensures SampleCount(pixels, stride) * stride >= pixels
  {
    if pixels > 0 {
      var m := (pixels - 1) / stride;
      assert (m + 1) * stride == m * stride + stride;
    }
  }

  /** All samples of an image of `pixels` pixels. */
  function Samples(data: seq<byte>, pixels: nat, q: Quality): (hs: seq<int>)
    requires |data| == DEPTH * pixels
    ensures |hs| == SampleCount(pixels, Stride(pixels, MaxSample(q)))
    ensures forall h :: h in hs ==> 0 <= h < BUCKETS
  {
    var stride := Stride(pixels, MaxSample(q));
    var k := SampleCount(pixels, stride);
    if k > 0 then SampleInside(pixels, stride, k - 1); Sampled(data, stride, k) else []
  }

  const COUNTER_MAX: nat := 65535

  /** One entry per distinct bucket, in first-occurrence order, with a saturating counter. */
  function Table(hs: seq<int>): (t: seq<Entry>)
    requires forall h :: h in hs ==> 0 <= h < BUCKETS
    ensures |t| == |FirstUse(hs)|
    ensures forall i :: 0 <= i < |t| ==>
              FirstUse(hs)[i] in hs
                  && t[i] == Entry(Min(COUNTER_MAX, Count(hs, FirstUse(hs)[i])), Decode(FirstUse(hs)[i]))
  {
    var u := FirstUse(hs);
    assert forall i :: 0 <= i < |u| ==> u[i] in hs;
    seq(|u|, i requires 0 <= i < |u| => Entry(Min(COUNTER_MAX, Count(hs, u[i])), Decode(u[i])))
  }

  // ---- the method -----------------------------------------------------------------------

  /** The counters and the reference map after the samples `hs`. */
  ghost predicate Counted(hs: seq<int>, histogram: seq<ushort>, refmap: seq<ushort>, refs: nat) {
    && |histogram| == BUCKETS && |refmap| == BUCKETS && refs == |FirstUse(hs)| <= BUCKETS
    && (forall h: nat | h < BUCKETS :: histogram[h] == Min(COUNTER_MAX, Count(hs, h)))
    && (forall i :: 0 <= i < refs ==> refmap[i] == FirstUse(hs)[i])
  }

  lemma RoomForBucket(hs: seq<int>, b: nat)
    requires (forall h :: h in hs ==> 0 <= h < BUCKETS) && b < BUCKETS && b !in hs
    ensures |FirstUse(hs)| < BUCKETS
  {
    FirstUseSnoc(hs, b);
    var u := FirstUse(hs + [b]);
    forall i | 0 <= i < |u|
      ensures 0 <= u[i] < BUCKETS
    {
      assert u[i] in hs + [b];
    }
    DistinctBounded(u, BUCKETS);
  }

  lemma CountedStart(histogram: seq<ushort>, refmap: seq<ushort>)
    requires |histogram| == BUCKETS && |refmap| == BUCKETS
    requires forall h :: 0 <= h < BUCKETS ==> histogram[h] == 0
    ensures Counted([], histogram, refmap, 0)
  {
  }

  /** The loop body that counts one sample. */
  method CountSample(ghost hs: seq<int>, histogram: array<ushort>, refmap: array<ushort>, refs: nat, bucket: nat)
    returns (refs': nat)
    requires forall h :: h in hs ==> 0 <= h < BUCKETS
    requires bucket < BUCKETS && histogram != refmap && Counted(hs, histogram[..], refmap[..], refs)
    modifies histogram, refmap
    ensures Counted(hs + [bucket], histogram[..], refmap[..], refs')
  {
    hide FirstUse, Count;
    refs' := refs;
    FirstUseSnoc(hs, bucket);
    forall h: nat
      ensures Count(hs + [bucket], h) == Count(hs, h) + if h == bucket then 1 else 0
    {
      CountSnoc(hs, bucket, h);
    }
    if histogram[bucket] == 0 {
      RoomForBucket(hs, bucket);
      refmap[refs'] := bucket;
      refs' := refs' + 1;
    }
    if histogram[bucket] < 65535 {
      histogram[bucket] := histogram[bucket] + 1;
    }
  }

  /** The tuple that the table gets for a bucket: three five-bit fields, shifted back up. */
  method RebuildTuple(bucket: nat) returns (tuple: Color)
    requires bucket < BUCKETS
    ensures tuple == Decode(bucket)
  {
    hide Power2;
    FieldWeights();
    tuple := Color(0, 0, 0);
    var n := 0;
    while n < DEPTH
      invariant 0 <= n <= DEPTH
      invariant n > 0 ==> tuple.c2 == bucket % 32 * 8
      invariant n > 1 ==> tuple.c1 == bucket / 32 % 32 * 8
      invariant n > 2 ==> tuple.c0 == bucket / 1024 % 32 * 8
    {
      tuple := SetPlane(tuple, DEPTH - 1 - n, bucket / Power2(n * 5) % 32 * 8);
      n := n + 1;
    }
  }

  /** `computeHistogram`. */
  method ComputeHistogram(data: array<byte>, length: nat, quality: Quality) returns (table: array<Entry>)
    requires length == data.Length && length % DEPTH == 0
    ensures fresh(table)
    ensures table[..] == Table(Samples(data[..], length / DEPTH, quality))
  {
    hide FirstUse, Count, Counted, Sampled, Hash, SampleCount;
    var maxSample := MaxSample(quality);
    var step := length / DEPTH / maxSample * DEPTH;
    if step <= 0 {
      step := DEPTH;
    }
    ghost var pixels, stride := length / DEPTH, Stride(length / DEPTH, maxSample);
    assert step == DEPTH * stride;

    var histogram := new ushort[BUCKETS](_ => 0);
    var refmap := new ushort[BUCKETS](_ => 0);
    var refs := 0;
    CountedStart(histogram[..], refmap[..]);
    var i := 0;
    ghost var k: nat, p: nat := 0, 0;
    while i < length
      invariant i == DEPTH * p && p == k * stride && k <= SampleCount(pixels, stride)
      invariant k > 0 ==> DEPTH * ((k - 1) * stride) + 2 < length
      invariant Counted(Sampled(data[..], stride, k), histogram[..], refmap[..], refs)
      decreases length - i
    {
      var bucketIndex := ComputeHash(Color(data[i], data[i + 1], data[i + 2]));
      SampledNext(data[..], pixels, stride, k, p);
      refs := CountSample(Sampled(data[..], stride, k), histogram, refmap, refs, bucketIndex);
      i := i + step;
      k, p := k + 1, p + stride;
    }
    SampleOutside(pixels, stride, k);

    table := BuildTable(Samples(data[..], pixels, quality), histogram, refmap, refs);
  }

  /** The loop that turns the counters into the tuple table. */
  method BuildTable(ghost hs: seq<int>, histogram: array<ushort>, refmap: array<ushort>, refs: nat)
    returns (table: array<Entry>)
    requires forall h :: h in hs ==> 0 <= h < BUCKETS
    requires Counted(hs, histogram[..], refmap[..], refs)
    ensures fresh(table) && table[..] == Table(hs)
  {
    hide FirstUse, Count;
    table := new Entry[refs](_ => Entry(0, Color(0, 0, 0)));
    var i := 0;
    while i < table.Length
      invariant 0 <= i <= table.Length == refs
      invariant forall j :: 0 <= j < i ==> table[j] == Table(hs)[j]
    {
      assert FirstUse(hs)[i] in hs;
      if histogram[refmap[i]] > 0 {
        var tuple := RebuildTuple(refmap[i]);
        table[i] := Entry(histogram[refmap[i]], tuple);
      }
      i := i + 1;
    }
  }

  // ---- what the table says ---------------------------------------------------------------

  /** The sum of the values of a piece of a table. */
  function Total(t: seq<Entry>): nat {
    if t == [] then 0 else Total(t[..|t| - 1]) + t[|t| - 1].value
  }

  /** No two entries have the same colour. */
  ghost predicate DistinctTuples(t: seq<Entry>) {
    forall i, j :: 0 <= i < j < |t| ==> t[i].tuple != t[j].tuple
  }

  lemma TableIsDistinct(hs: seq<int>)
    requires forall h :: h in hs ==> 0 <= h < BUCKETS
    ensures DistinctTuples(Table(hs))
  {
    hide FirstUse, Count, Decode;
    var u := FirstUse(hs);
    forall i, j | 0 <= i < j < |u|
      ensures Table(hs)[i].tuple != Table(hs)[j].tuple
    {
      assert u[i] in hs && u[j] in hs;
      if Table(hs)[i].tuple == Table(hs)[j].tuple {
        DecodeInjective(u[i], u[j]);
      }
    }
  }

  /** Every sampled colour has its bucket in the table, rounded down to a multiple of 8, and a positive count. */
  lemma TableCovers(hs: seq<int>, p: Color)
    requires forall h :: h in hs ==> 0 <= h < BUCKETS
    requires Hash(p) in hs
    ensures exists i: nat :: i < |Table(hs)| && Table(hs)[i].tuple == Color(Floor8(p.c0), Floor8(p.c1), Floor8(p.c2))
                             && 0 < Table(hs)[i].value <= 65535
  {
    hide FirstUse, Count, Hash, Floor8;
    DecodeHash(p);
    var u := FirstUse(hs);
    assert Hash(p) in u;
    var i: nat :| i < |u| && u[i] == Hash(p);
    assert Table(hs)[i].tuple == Decode(Hash(p));
  }

  /** The number of samples is at most twice the sampling budget. */
  lemma SamplesBounded(pixels: nat, maxSample: nat)
    requires maxSample > 0
    ensures SampleCount(pixels, Stride(pixels, maxSample)) <= 2 * maxSample
  {
    var q, stride := pixels / maxSample, Stride(pixels, maxSample);
    assert pixels < q * maxSample + maxSample;
    BudgetCovers(q, stride, maxSample);
    CountBelow(pixels, stride, 2 * maxSample);
  }

  lemma BudgetCovers(q: nat, stride: nat, maxSample: nat)
    requires stride == if q == 0 then 1 else q
    ensures 2 * maxSample * stride >= q * maxSample + maxSample
  {
    assert 2 * maxSample * stride == maxSample * stride + maxSample * stride;
    assert maxSample * stride >= maxSample;
    assert maxSample * stride >= q * maxSample;
  }

  /** An image with enough pixels gets at least the sampling budget. */
  lemma SamplesEnough(pixels: nat, maxSample: nat)
    requires 0 < maxSample <= pixels
    ensures SampleCount(pixels, Stride(pixels, maxSample)) >= maxSample
  {
    var q := pixels / maxSample;
    assert q * maxSample <= pixels;
    CountCovers(pixels, q);
    var count := SampleCount(pixels, q);
    assert (maxSample - 1) * q == maxSample * q - q;
    if count < maxSample {
      MulMonotone(count, maxSample - 1, q);
    }
  }

  /** `hs` are the buckets of the pixels 0, n, 2n and so on. */
  ghost predicate EveryNth(hs: seq<int>, data: seq<byte>, pixels: nat, n: nat)
    requires |data| == DEPTH * pixels
  {
    forall k: nat | k < |hs| :: k * n < pixels && hs[k] == Hash(PixelAt(data, k * n))
  }

  /**
    What is sampled in each quality mode: pixels 0, n, 2n and so on up to the end
    of the image, with `n` the number of pixels divided by the budget, or 1.  So
    an image below twice the budget is sampled completely, and a larger one at
    least as often as the budget says and at most twice as often.
   */
  lemma SamplesOfQuality(data: seq<byte>, pixels: nat, q: Quality)
    requires |data| == DEPTH * pixels
    ensures var budget := match q case QualityLow => 18383 case QualityHigh => 1118383 case _ => 4003079;
            var n := if pixels < 2 * budget then 1 else pixels / budget;
            var hs := Samples(data, pixels, q);
            && EveryNth(hs, data, pixels, n) && |hs| * n >= pixels
            && (pixels < 2 * budget ==> |hs| == pixels)
            && (pixels >= budget ==> budget <= |hs| <= 2 * budget)
  {
    hide Hash, PixelAt, Sampled, SampleCount, Stride, Samples;
    var budget := MaxSample(q);
    var n := Stride(pixels, budget);
    SampleTotals(pixels, budget);
    forall k: nat | k < |Samples(data, pixels, q)|
      ensures k * n < pixels && Samples(data, pixels, q)[k] == Hash(PixelAt(data, k * n))
    {
      SampleAt(data, pixels, q, k);
    }
  }

  lemma SampleTotals(pixels: nat, budget: nat)
    requires budget > 0
    ensures var n := Stride(pixels, budget);
            var count := SampleCount(pixels, n);
            && n == (if pixels < 2 * budget then 1 else pixels / budget)
            && count * n >= pixels
            && (pixels < 2 * budget ==> count == pixels)
            && (pixels >= budget ==> budget <= count <= 2 * budget)
  {
    hide SampleCount, Stride;
    NearBudget(pixels, budget);
    CountCovers(pixels, Stride(pixels, budget));
    CountAll1(pixels);
    if pixels >= budget {
      SamplesEnough(pixels, budget);
      SamplesBounded(pixels, budget);
    }
  }

  lemma SampleAt(data: seq<byte>, pixels: nat, q: Quality, k: nat)
    requires |data| == DEPTH * pixels && k < |Samples(data, pixels, q)|
    ensures var n := Stride(pixels, MaxSample(q));
            k * n < pixels && Samples(data, pixels, q)[k] == Hash(PixelAt(data, k * n))
  {
    hide Hash, PixelAt, Sampled, SampleCount, Stride;
    var n := Stride(pixels, MaxSample(q));
    var count := SampleCount(pixels, n);
    SampleInside(pixels, n, k);
    SampleInside(pixels, n, count - 1);
    SampledAt(data, n, count, k);
  }

  lemma NearBudget(pixels: nat, budget: nat)
    requires budget > 0
    ensures Stride(pixels, budget) == if pixels < 2 * budget then 1 else pixels / budget
  {
    if pixels < 2 * budget {
      var q := pixels / budget;
      if q >= 2 {
        MulMonotone(2, q, budget);
      }
    }
  }

  lemma CountAll1(pixels: nat)
    ensures SampleCount(pixels, 1) == pixels
  {
  }

  /** Below twice the budget every pixel is sampled. */
  lemma AllPixelsSampled(data: seq<byte>, pixels: nat, q: Quality, i: nat)
    requires |data| == DEPTH * pixels && i < pixels
    requires pixels < match q case QualityLow => 36766 case QualityHigh => 2236766 case _ => 8006158
    ensures Hash(PixelAt(data, i)) in Samples(data, pixels, q)
  {
    hide Hash, PixelAt, Samples;
    SamplesOfQuality(data, pixels, q);
    var k := i * 1;
    assert Samples(data, pixels, q)[i] == Hash(PixelAt(data, k));
  }

  lemma {:induction false} SampledAt(data: seq<byte>, stride: nat, k: nat, i: nat)
    requires DEPTH * ((k - 1) * stride) + 2 < |data| && i < k
    ensures DEPTH * (i * stride) + 2 < |data|
    ensures Sampled(data, stride, k)[i] == Hash(PixelAt(data, i * stride))
  {
    hide Hash, PixelAt;
    MulMonotone(i, k - 1, stride);
    if i < k - 1 {
      MulMonotone(k - 2, k - 1, stride);
      SampledAt(data, stride, k - 1, i);
    }
  }

  /** If no counter saturates, the values add up to the number of samples. */
  lemma TotalIsSampleCount(hs: seq<int>)
    requires forall h :: h in hs ==> 0 <= h < BUCKETS
    requires |hs| <= 65535
    ensures Total(Table(hs)) == |hs|
  {
    TotalOfCounts(hs, FirstUse(hs), Table(hs));
    CountAllFirstUse(hs);
  }

  lemma {:induction false} TotalOfCounts(hs: seq<int>, u: seq<int>, t: seq<Entry>)
    requires |t| == |u| && |hs| <= COUNTER_MAX
    requires forall i :: 0 <= i < |u| ==> t[i].value == Min(COUNTER_MAX, Count(hs, u[i]))
    ensures Total(t) == CountAll(hs, u)
  {
    if u != [] {
      TotalOfCounts(hs, u[..|u| - 1], t[..|t| - 1]);
    }
  }

  /** The sampling budget of the low quality mode rules saturation out. */
  lemma LowQualityIsExact(data: seq<byte>, pixels: nat)
    requires |data| == DEPTH * pixels
    ensures Total(Table(Samples(data, pixels, QualityLow))) == |Samples(data, pixels, QualityLow)| <= 2 * 18383
  {
    SamplesBounded(pixels, MaxSample(QualityLow));
    TotalIsSampleCount(Samples(data, pixels, QualityLow));
  }

  /** Sums over the table fit the source's signed comparison of box sums. */
  lemma TotalFitsInt(hs: seq<int>)
    requires forall h :: h in hs ==> 0 <= h < BUCKETS
    ensures Total(Table(hs)) <= BUCKETS * COUNTER_MAX < INT_MAX
  {
    var u := FirstUse(hs);
    assert forall i :: 0 <= i < |u| ==> u[i] in hs;
    DistinctBounded(u, BUCKETS);
    TotalBound(Table(hs));
    assert |u| * COUNTER_MAX <= BUCKETS * COUNTER_MAX;
  }

  lemma {:induction false} TotalBound(t: seq<Entry>)
    requires forall e <- t :: e.value <= COUNTER_MAX
    ensures Total(t) <= |t| * COUNTER_MAX
  {
    if t != [] {
      TotalBound(t[..|t| - 1]);
    }
  }
}
