/** Nearest-colour search: the exact scan and the scan behind a 15-bit cache. */
module Lookup {
  import opened CArithmetic
  import opened Colors

  function Sq(v: int): int { v * v }

  function Weigh(v: int, w: int): int { v * w }

  /** The squared distance that weights the first component by `complexion`. */
  function Dist(p: Color, q: Color, complexion: int): int {
    Weigh(Sq(p.c0 - q.c0), complexion) + Sq(p.c1 - q.c1) + Sq(p.c2 - q.c2)
  }

  /** `i` is the lowest index among the entries of `pal[..n]` that are nearest to `p`. */
  ghost predicate FirstNearest(p: Color, pal: seq<byte>, n: nat, complexion: int, i: int)
    requires DEPTH * n <= |pal|
  {
    && 0 <= i < n
    && (forall j: nat | j < n :: Dist(p, PixelAt(pal, i), complexion) <= Dist(p, PixelAt(pal, j), complexion))
    && (forall j: nat | j < i :: Dist(p, PixelAt(pal, i), complexion) < Dist(p, PixelAt(pal, j), complexion))
  }

  /** The distances from `p` to the first `n` palette entries. */
  function Dists(p: Color, pal: seq<byte>, n: nat, complexion: int): (ds: seq<int>)
    requires DEPTH * n <= |pal|
    ensures |ds| == n
  {
    seq(n, i requires 0 <= i < n => Dist(p, PixelAt(pal, i), complexion))
  }

  /** The first position of the least element. */
  function FirstMin(ds: seq<int>): (r: nat)
    requires ds != []
    ensures r < |ds|
    ensures forall j :: 0 <= j < |ds| ==> ds[r] <= ds[j]
    ensures forall j :: 0 <= j < r ==> ds[r] < ds[j]
  {
    if |ds| == 1 then 0 else
    var last := |ds| - 1;
    var r := FirstMin(ds[..last]);
    if ds[last] < ds[r] then last else r
  }

  lemma DistsInRange(p: Color, pal: seq<byte>, n: nat, complexion: int)
    requires DEPTH * n <= |pal| && MIN_COMPLEXION <= complexion <= MAX_COMPLEXION
    ensures forall i :: 0 <= i < n ==> Dists(p, pal, n, complexion)[i] < INT_MAX
  {
    forall i | 0 <= i < n
      ensures Dists(p, pal, n, complexion)[i] < INT_MAX
    {
      DistInRange(p, PixelAt(pal, i), complexion);
    }
  }

  /** One iteration of either scan. */
  lemma ScanStep(ds: seq<int>, i: nat)
    requires i < |ds|
    ensures FirstMin(ds[..i + 1]) ==
            if i == 0 || ds[i] < ds[FirstMin(ds[..i])] then i else FirstMin(ds[..i])
  {
    assert ds[..i + 1][..i] == ds[..i];
  }

  /** The first nearest entry among the first `n`. */
  function Nearest(p: Color, pal: seq<byte>, n: nat, complexion: int): (i: nat)
    requires 0 < n && DEPTH * n <= |pal|
    ensures FirstNearest(p, pal, n, complexion, i)
  {
    var ds := Dists(p, pal, n, complexion);
    var i := FirstMin(ds);
    assert forall j: nat | j < n :: Dist(p, PixelAt(pal, j), complexion) == ds[j];
    i
  }

  /** The distance to palette entry `i`, in bytes: only the first component is weighted. */
  lemma DistInBytes(p: Color, pal: seq<byte>, i: nat, complexion: int)
    requires DEPTH * i + 2 < |pal|
    ensures Dist(p, PixelAt(pal, i), complexion)
            == (p.c0 - pal[3 * i]) * (p.c0 - pal[3 * i]) * complexion
               + (p.c1 - pal[3 * i + 1]) * (p.c1 - pal[3 * i + 1])
               + (p.c2 - pal[3 * i + 2]) * (p.c2 - pal[3 * i + 2])
  {
  }

  // ---- integer range ---------------------------------------------------------

  const MAX_CHANNEL_DIFF_SQ := 255 * 255

  /** The largest complexion that `sixel_quant_apply_palette` lets through. */
  const MAX_COMPLEXION: int := (INT_MAX - MAX_CHANNEL_DIFF_SQ * 2) / MAX_CHANNEL_DIFF_SQ

  lemma SquareMonotone(d: nat, m: nat)
    requires d <= m
    ensures d * d <= m * m
  {
    assert d * d <= d * m <= m * m;
  }

  lemma SqBound(d: int)
    requires -255 <= d <= 255
    ensures 0 <= Sq(d) <= MAX_CHANNEL_DIFF_SQ
  {
    SquareMonotone(Abs(d), 255);
  }

  /** The least complexion whose products fit in `int`; below it the source's arithmetic is undefined. */
  const MIN_COMPLEXION: int := -33025

  /**
    The guard is exact.  It holds precisely when no distance reaches `INT_MAX`,
    so the scan, which starts from `INT_MAX` and compares with `<`, always finds
    an index.
   */
  lemma GuardIsExact(complexion: int)
    requires complexion >= MIN_COMPLEXION
    ensures complexion <= MAX_COMPLEXION <==>
            forall p, q :: -INT_MAX - 1 <= Dist(p, q, complexion) < INT_MAX
  {
    if complexion <= MAX_COMPLEXION {
      forall p, q
        ensures -INT_MAX - 1 <= Dist(p, q, complexion) < INT_MAX
      {
        DistInRange(p, q, complexion);
      }
    } else {
      var p, q := Color(255, 255, 255), Color(0, 0, 0);
      assert MAX_COMPLEXION == 33023;
      assert Dist(p, q, complexion) == 65025 * complexion + 130050;
      assert Dist(p, q, complexion) >= INT_MAX;
    }
  }

  /** Distances and their partial sums stay in the range of `int`, below `INT_MAX`. */
  lemma DistInRange(p: Color, q: Color, complexion: int)
    requires MIN_COMPLEXION <= complexion <= MAX_COMPLEXION
    ensures -INT_MAX - 1 <= Weigh(Sq(p.c0 - q.c0), complexion) <= Dist(p, q, complexion) < INT_MAX
    ensures complexion >= 0 ==> 0 <= Dist(p, q, complexion) <= MAX_CHANNEL_DIFF_SQ * (complexion + 2)
  {
    SqBound(p.c0 - q.c0);
    SqBound(p.c1 - q.c1);
    SqBound(p.c2 - q.c2);
    WeighBounds(Sq(p.c0 - q.c0), complexion);
    assert MAX_COMPLEXION == 33023;
  }

  lemma WeighBounds(s: int, w: int)
    requires 0 <= s <= MAX_CHANNEL_DIFF_SQ
    ensures w >= 0 ==> 0 <= Weigh(s, w) <= MAX_CHANNEL_DIFF_SQ * w
    ensures w <= 0 ==> MAX_CHANNEL_DIFF_SQ * w <= Weigh(s, w) <= 0
  {
    if w >= 0 {
      WeightedLess(0, s, w);
      WeightedLess(s, MAX_CHANNEL_DIFF_SQ, w);
    } else {
      WeightedLess(0, s, -w);
      WeightedLess(s, MAX_CHANNEL_DIFF_SQ, -w);
      assert Weigh(s, w) == -Weigh(s, -w);
    }
  }

  // ---- the exact scan ---------------------------------------------------------

  /** `lookup_normal`. */
  method LookupNormal(pixel: Color, palette: array<byte>, reqcolor: nat, complexion: int) returns (result: int)
    requires 0 < reqcolor && DEPTH * reqcolor <= palette.Length
    requires MIN_COMPLEXION <= complexion <= MAX_COMPLEXION
    ensures result == Nearest(pixel, palette[..], reqcolor, complexion)
  {
    hide Sq, Weigh, FirstMin;
    result := -1;
    var diff := INT_MAX;
    ghost var ds := Dists(pixel, palette[..], reqcolor, complexion);
    DistsInRange(pixel, palette[..], reqcolor, complexion);
    var i := 0;
    while i < reqcolor
      invariant 0 <= i <= reqcolor
      invariant i == 0 ==> result == -1 && diff == INT_MAX
      invariant i > 0 ==> result == FirstMin(ds[..i]) && diff == ds[result]
    {
      var distant := 0;
      var r := pixel.c0 - palette[i * DEPTH + 0];
      distant := distant + Weigh(Sq(r), complexion);
      var n := 1;
      ghost var q := PixelAt(palette[..], i);
      while n < DEPTH
        invariant 1 <= n <= DEPTH
        invariant distant == Weigh(Sq(pixel.c0 - q.c0), complexion)
                             + (if n > 1 then Sq(pixel.c1 - q.c1) else 0)
                             + (if n > 2 then Sq(pixel.c2 - q.c2) else 0)
      {
        r := Plane(pixel, n) - palette[i * DEPTH + n];
        distant := distant + Sq(r);
        n := n + 1;
      }
      assert distant == ds[i];
      ScanStep(ds, i);
      if distant < diff {
        diff := distant;
        result := i;
      }
      i := i + 1;
    }
    assert ds[..reqcolor] == ds;
  }

  // ---- the cached scan --------------------------------------------------------

  /** What `lookup_fast` answers. */
  function FastIndex(p: Color, pal: seq<byte>, n: nat, cache: seq<ushort>, complexion: int): int
    requires 0 < n && DEPTH * n <= |pal| && |cache| == BUCKETS
  {
    if cache[Hash(p)] != 0 then cache[Hash(p)] - 1 else Nearest(p, pal, n, complexion)
  }

  /** The cache that `lookup_fast` leaves behind. */
  function FastCache(p: Color, pal: seq<byte>, n: nat, cache: seq<ushort>, complexion: int): (c: seq<ushort>)
    requires 0 < n <= 256 && DEPTH * n <= |pal| && |cache| == BUCKETS
    ensures |c| == BUCKETS
  {
    if cache[Hash(p)] != 0 then cache else cache[Hash(p) := Nearest(p, pal, n, complexion) + 1]
  }

  /** `lookup_fast`. */
  method LookupFast(pixel: Color, palette: array<byte>, reqcolor: nat, cachetable: array<ushort>, complexion: int)
    returns (result: int)
    requires 0 < reqcolor <= 256 && DEPTH * reqcolor <= palette.Length
    requires cachetable.Length == BUCKETS
    requires MIN_COMPLEXION <= complexion <= MAX_COMPLEXION
    modifies cachetable
    ensures result == FastIndex(pixel, old(palette[..]), reqcolor, old(cachetable[..]), complexion)
    ensures cachetable[..] == FastCache(pixel, old(palette[..]), reqcolor, old(cachetable[..]), complexion)
  {
    hide Dist, Hash, FirstMin;
    result := -1;
    var diff := INT_MAX;
    var hash := ComputeHash(pixel);
    var cache := cachetable[hash];
    if cache != 0 {
      return cache - 1;
    }
    ghost var ds := Dists(pixel, palette[..], reqcolor, complexion);
    DistsInRange(pixel, palette[..], reqcolor, complexion);
    var i := 0;
    while i < reqcolor
      modifies {}
      invariant 0 <= i <= reqcolor
      invariant i == 0 ==> result == -1 && diff == INT_MAX
      invariant i > 0 ==> result == FirstMin(ds[..i]) && diff == ds[result]
    {
      var entry := Color(palette[i * 3 + 0], palette[i * 3 + 1], palette[i * 3 + 2]);
      var distant := Dist(pixel, entry, complexion);
      assert distant == ds[i];
      ScanStep(ds, i);
      if distant < diff {
        diff := distant;
        result := i;
      }
      i := i + 1;
    }
    assert ds[..reqcolor] == ds;
    cachetable[hash] := result + 1;
    assert cachetable[..] == old(cachetable[..])[hash := result + 1];
  }

  /**
    The cache invariant: a non-zero entry at bucket `h` is one more than the
    first nearest index of some colour of that bucket.
   */
  ghost predicate CacheSound(cache: seq<ushort>, pal: seq<byte>, n: nat, complexion: int)
    requires 0 < n && DEPTH * n <= |pal| && |cache| == BUCKETS
  {
    forall h: nat | h < BUCKETS && cache[h] != 0 ::
      exists q :: Hash(q) == h && cache[h] == Nearest(q, pal, n, complexion) + 1
  }

  lemma FastLookupKeepsCacheSound(p: Color, pal: seq<byte>, n: nat, cache: seq<ushort>, complexion: int)
    requires 0 < n <= 256 && DEPTH * n <= |pal| && |cache| == BUCKETS
    requires CacheSound(cache, pal, n, complexion)
    ensures var i := FastIndex(p, pal, n, cache, complexion);
            var cache' := FastCache(p, pal, n, cache, complexion);
            && CacheSound(cache', pal, n, complexion)
            && 0 <= i < n
            && cache'[Hash(p)] == i + 1
            && (forall h: nat | h < BUCKETS && cache[h] != 0 :: cache'[h] == cache[h])
            && (exists q :: Hash(q) == Hash(p) && i == Nearest(q, pal, n, complexion))
  {
    var i := FastIndex(p, pal, n, cache, complexion);
    var cache' := FastCache(p, pal, n, cache, complexion);
    if cache[Hash(p)] == 0 {
      assert i == Nearest(p, pal, n, complexion);
      forall h: nat | h < BUCKETS && cache'[h] != 0
        ensures exists q :: Hash(q) == h && cache'[h] == Nearest(q, pal, n, complexion) + 1
      {
        if h != Hash(p) {
          assert cache'[h] == cache[h];
        }
      }
    }
  }

  // ---- how far the cached answer can be off ------------------------------------

  /** The weighted distance between two palette colours along the axes. */
  function Spread(a: Color, o: Color, complexion: nat): nat {
    Weigh(Abs(a.c0 - o.c0), complexion) + Abs(a.c1 - o.c1) + Abs(a.c2 - o.c2)
  }

  lemma DifferenceOfSquares(u: int, v: int)
    ensures Sq(u) - Sq(v) == (u - v) * (u + v)
  {
  }

  lemma Distribute(g: int, x: int, y: int)
    ensures g * x - g * y == g * (x - y)
  {
  }

  lemma ProductBound(g: int, d: int)
    requires -14 <= d <= 14
    ensures g * d <= 14 * Abs(g)
  {
    if g >= 0 {
      assert g * d <= g * 14;
    } else {
      assert (-g) * (-d) <= (-g) * 14;
    }
  }

  /** One channel: moving the probe by less than 8 changes a comparison by at most 14 times the gap. */
  lemma ChannelShift(p: int, q: int, a: int, o: int)
    requires -7 <= p - q <= 7
    ensures (Sq(p - a) - Sq(p - o)) - (Sq(q - a) - Sq(q - o)) <= 14 * Abs(a - o)
  {
    var g := o - a;
    DifferenceOfSquares(p - a, p - o);
    DifferenceOfSquares(q - a, q - o);
    Distribute(g, 2 * p - a - o, 2 * q - a - o);
    ProductBound(g, 2 * (p - q));
  }

  /** The same for the first channel, weighted. */
  lemma WeightedShift(x: int, y: int, z: int, t: int, gap: nat, w: nat)
    requires (x - y) - (z - t) <= 14 * gap
    ensures (Weigh(x, w) - Weigh(y, w)) - (Weigh(z, w) - Weigh(t, w)) <= 14 * Weigh(gap, w)
  {
    var d := (x - y) - (z - t);
    assert d * w <= (14 * gap) * w;
    assert d * w == (x * w - y * w) - (z * w - t * w);
    assert (14 * gap) * w == 14 * (gap * w);
  }

  /** A nearest colour of a neighbour in the same bucket is nearly nearest. */
  lemma NeighbourIsNearlyNearest(p: Color, q: Color, a: Color, o: Color, complexion: nat)
    requires Hash(p) == Hash(q)
    requires Dist(q, a, complexion) <= Dist(q, o, complexion)
    ensures Dist(p, a, complexion) - Dist(p, o, complexion) <= 14 * Spread(a, o, complexion)
  {
    hide Sq, Hash, Weigh;
    SameBucket(p, q);
    ChannelShift(p.c0, q.c0, a.c0, o.c0);
    ChannelShift(p.c1, q.c1, a.c1, o.c1);
    ChannelShift(p.c2, q.c2, a.c2, o.c2);
    WeightedShift(Sq(p.c0 - a.c0), Sq(p.c0 - o.c0), Sq(q.c0 - a.c0), Sq(q.c0 - o.c0), Abs(a.c0 - o.c0), complexion);
  }

  lemma WeightedLess(x: int, y: int, w: nat)
    requires x <= y
    ensures Weigh(x, w) <= Weigh(y, w)
  {
  }

  lemma SpreadBound(a: Color, o: Color, complexion: nat)
    ensures Spread(a, o, complexion) <= 255 * (complexion + 2)
  {
    WeightedLess(Abs(a.c0 - o.c0), 255, complexion);
  }

  /**
    The cached lookup approximates the exact one, for every pixel and every
    sound cache, within 14 times the weighted gap between the two answers.
   */
  lemma FastLookupIsNearlyNearest(p: Color, pal: seq<byte>, n: nat, cache: seq<ushort>, complexion: nat)
    requires 0 < n <= 256 && DEPTH * n <= |pal| && |cache| == BUCKETS
    requires CacheSound(cache, pal, n, complexion)
    ensures var i := FastIndex(p, pal, n, cache, complexion);
            && 0 <= i < n
            && var a, o := PixelAt(pal, i), PixelAt(pal, Nearest(p, pal, n, complexion));
               && Dist(p, a, complexion) - Dist(p, o, complexion) <= 14 * Spread(a, o, complexion)
               && Dist(p, a, complexion) - Dist(p, o, complexion) <= 3570 * (complexion + 2)
  {
    FastLookupKeepsCacheSound(p, pal, n, cache, complexion);
    var i := FastIndex(p, pal, n, cache, complexion);
    var q :| Hash(q) == Hash(p) && i == Nearest(q, pal, n, complexion);
    var k := Nearest(p, pal, n, complexion);
    var a, o := PixelAt(pal, i), PixelAt(pal, k);
    NeighbourIsNearlyNearest(p, q, a, o, complexion);
    SpreadBound(a, o, complexion);
  }

  // ---- when every bucket has its own palette colour ------------------------------

  /** Colours of one bucket are within 49 * (complexion + 2). */
  lemma BucketDiameter(p: Color, q: Color, complexion: nat)
    requires Hash(p) == Hash(q)
    ensures Dist(p, q, complexion) <= 49 * (complexion + 2)
  {
    SameBucket(p, q);
    SmallSq(p.c0 - q.c0);
    SmallSq(p.c1 - q.c1);
    SmallSq(p.c2 - q.c2);
    WeightedLess(Sq(p.c0 - q.c0), 49, complexion);
  }

  lemma SmallSq(d: int)
    requires -7 <= d <= 7
    ensures Sq(d) <= 49
  {
    var e := Abs(d);
    assert Sq(d) == e * e;
    assert e * e <= 7 * e;
  }

  /** Squared distances satisfy a weak triangle inequality. */
  lemma WeakTriangle(p: Color, q: Color, a: Color, complexion: nat)
    ensures Dist(p, a, complexion) <= 2 * Dist(p, q, complexion) + 2 * Dist(q, a, complexion)
  {
    hide Sq, Weigh;
    SqSum(p.c0 - q.c0, q.c0 - a.c0);
    SqSum(p.c1 - q.c1, q.c1 - a.c1);
    SqSum(p.c2 - q.c2, q.c2 - a.c2);
    WeightedSum(Sq(p.c0 - a.c0), Sq(p.c0 - q.c0), Sq(q.c0 - a.c0), complexion);
  }

  lemma WeightedSum(x: int, y: int, z: int, w: nat)
    requires x <= 2 * y + 2 * z
    ensures Weigh(x, w) <= 2 * Weigh(y, w) + 2 * Weigh(z, w)
  {
    assert x * w <= (2 * y + 2 * z) * w;
    assert (2 * y + 2 * z) * w == 2 * (y * w) + 2 * (z * w);
  }

  lemma SqSum(u: int, v: int)
    ensures Sq(u + v) <= 2 * Sq(u) + 2 * Sq(v)
  {
    assert 2 * Sq(u) + 2 * Sq(v) - Sq(u + v) == Sq(u - v) >= 0;
  }

  /** Some palette entry lies in the bucket of `p`. */
  ghost predicate Covered(p: Color, pal: seq<byte>, n: nat)
    requires DEPTH * n <= |pal|
  {
    exists k: nat :: k < n && Hash(PixelAt(pal, k)) == Hash(p)
  }

  lemma CoveredNearest(p: Color, pal: seq<byte>, n: nat, complexion: nat)
    requires 0 < n && DEPTH * n <= |pal| && Covered(p, pal, n)
    ensures Dist(p, PixelAt(pal, Nearest(p, pal, n, complexion)), complexion) <= 49 * (complexion + 2)
  {
    var k: nat :| k < n && Hash(PixelAt(pal, k)) == Hash(p);
    BucketDiameter(p, PixelAt(pal, k), complexion);
  }

  lemma CoveredFast(p: Color, pal: seq<byte>, n: nat, cache: seq<ushort>, complexion: nat)
    requires 0 < n <= 256 && DEPTH * n <= |pal| && |cache| == BUCKETS
    requires CacheSound(cache, pal, n, complexion) && Covered(p, pal, n)
    ensures var i := FastIndex(p, pal, n, cache, complexion);
            0 <= i < n && Dist(p, PixelAt(pal, i), complexion) <= 196 * (complexion + 2)
  {
    FastLookupKeepsCacheSound(p, pal, n, cache, complexion);
    var i := FastIndex(p, pal, n, cache, complexion);
    var q :| Hash(q) == Hash(p) && i == Nearest(q, pal, n, complexion);
    BucketDiameter(p, q, complexion);
    CoveredNearest(q, pal, n, complexion);
    WeakTriangle(p, q, PixelAt(pal, i), complexion);
  }
}
