/** The dither object of `dither.c`: it decides diffusion, the cache's lifetime and which lookup runs. */
module Dither {
  import opened CArithmetic
  import opened Colors
  import opened Diffusion
  import opened Lookup
  import opened Scan
  import opened ScanProperties
  import opened CacheProperties
  import opened Compaction
  import opened FirstUses
  import opened ApplyPalette
  import opened Histogram
  import opened Planes
  import opened MedianCut
  import opened ColorMap
  import opened Palette

  /** `method_for_largest` with its automatic setting. */
  datatype LargestChoice = LargestAuto | LargestIs(method_: Largest)

  /** `method_for_rep` with its automatic setting. */
  datatype RepChoice = RepAuto | RepIs(rep: Rep)

  // ---- the error bound, on values --------------------------------------------------------------

  /** Without a kernel the buffer never changes. */
  lemma {:induction false} NoDiffusion(job: Job, s: State, n: nat)
    requires Fits(job, s) && s.indices == [] && job.kernel == KNone && n <= job.size
    ensures ScanTo(job, s, n).data == s.data
  {
    hide Answer, Nearest, CacheAfter;
    if n > 0 {
      NoDiffusion(job, s, n - 1);
      StepFields(job, s, n - 1);
      Raster(n - 1, job.width, job.height);
      NoDiffusionPlanes(job, s.data, Col(job.width, n - 1), Row(job.width, n - 1),
                        ScanTo(job, s, n).indices[n - 1], job.depth);
    }
  }

  lemma {:induction false} NoDiffusionPlanes(job: Job, data: seq<byte>, x: int, y: int, index: nat, n: nat)
    requires n <= DEPTH && 0 <= y * job.width + x && DEPTH * (y * job.width + x) + 2 < |data|
    requires DEPTH * index + 2 < |job.palette| && job.kernel == KNone
    ensures DiffusePlanes(job, data, x, y, index, n) == data
  {
    if n > 0 {
      NoDiffusionPlanes(job, data, x, y, index, n - 1);
    }
  }

  /** The methods that leave the image as it is, and the widths at which the wide kernels do. */
  lemma QuietMethods(job: Job, s: State, m: DiffuseMethod, n: nat)
    requires Fits(job, s) && s.indices == [] && n <= job.size && job.kernel == SelectKernel(m, job.width)
    requires m != DiffuseFS && m != DiffuseAtkinson
    requires job.width < 2 || (m != DiffuseJaJuNi && m != DiffuseStucki && m != DiffuseBurkes)
    ensures ScanTo(job, s, n).data == s.data
  {
    NoDiffusion(job, s, n);
  }

  /** The factor of the error bound. */
  function BoundFactor(lookup: LookupKind): nat { if lookup == LkFast then 196 else 49 }

  /** Index `index` draws `p` within the bound. */
  ghost predicate Close(job: Job, p: Color, index: int) {
    && 0 <= index && DEPTH * index + 2 < |job.palette|
    && Dist(p, PixelAt(job.palette, index), job.complexion) <= BoundFactor(job.lookup) * (job.complexion + 2)
  }

  /** The lookup of a covered colour answers within the bound. */
  lemma AnswerIsClose(job: Job, p: Color, cache: seq<ushort>)
    requires job.Valid() && CacheInRange(job, cache) && job.complexion >= 1
    requires job.lookup == LkNormal
             || (job.lookup == LkFast && CacheSound(cache, job.palette, job.reqcolor, job.complexion))
    requires Covered(p, job.palette, job.reqcolor)
    ensures Close(job, p, Answer(job, p, cache))
  {
    hide Dist, Covered, CacheSound, Nearest, FastIndex, Hash;
    if job.lookup == LkNormal {
      CoveredNearest(p, job.palette, job.reqcolor, job.complexion);
    } else {
      CoveredFast(p, job.palette, job.reqcolor, cache, job.complexion);
    }
  }

  /** The scans to which the error bound applies. */
  ghost predicate Undiffused(job: Job, s: State) {
    && Fits(job, s) && s.indices == [] && job.kernel == KNone && job.mask == NoMask && job.complexion >= 1
    && (job.lookup == LkNormal || job.lookup == LkFast)
    && (job.lookup == LkFast ==> CacheSound(s.cache, job.palette, job.reqcolor, job.complexion))
  }

  /**
    The end-to-end error bound of a scan.  If nothing is diffused or masked and
    every pixel's bucket has a palette entry, every pixel is drawn with a colour
    within 49 * (complexion + 2) of it, or 196 * (complexion + 2) when a sound
    cache answers.
   */
  lemma CoveredScanIsClose(job: Job, s: State, pos: nat)
    requires Undiffused(job, s)
    requires pos < job.size && Covered(PixelAt(s.data, pos), job.palette, job.reqcolor)
    ensures Close(job, PixelAt(s.data, pos), ScanTo(job, s, job.size).indices[pos])
  {
    hide Dist, Covered, CacheSound, Nearest, FastIndex, Close, Step, Answer;
    NoDiffusion(job, s, pos);
    RecordedAnswer(job, s, pos);
    assert Looked(job, s, pos) == PixelAt(s.data, pos);
    if job.lookup == LkFast {
      CacheStaysSound(job, s, pos);
    }
    AnswerIsClose(job, PixelAt(s.data, pos), ScanTo(job, s, pos).cache);
  }

  /** If every pixel is sampled and the buckets fit, the palette covers every pixel. */
  lemma PaletteCovers(data: seq<byte>, q: Quality, reqColors: nat, largest: Largest, rep: Rep, colors: seq<Color>,
                      pal: seq<byte>, pos: nat)
    requires |data| % DEPTH == 0 && PaletteFor(colors, HistogramOf(data, q), reqColors, largest, rep)
    requires |HistogramOf(data, q)| <= reqColors
    requires |data| / DEPTH < match q case QualityLow => 36766 case QualityHigh => 2236766 case _ => 8006158
    requires Holds(pal, colors) && pos < |data| / DEPTH
    ensures Covered(PixelAt(data, pos), pal, |colors|)
  {
    hide Hash, Table, Samples, Floor8;
    var pixels := |data| / DEPTH;
    var hs := Samples(data, pixels, q);
    var p := PixelAt(data, pos);
    AllPixelsSampled(data, pixels, q, pos);
    TableCovers(hs, p);
    var i: nat :| i < |Table(hs)| && Table(hs)[i].tuple == Color(Floor8(p.c0), Floor8(p.c1), Floor8(p.c2));
    assert PixelAt(pal, i) == Table(hs)[i].tuple;
    DecodeHash(p);
    HashDecode(Hash(p));
    assert Hash(PixelAt(pal, i)) == Hash(p);
  }

  /** No generated palette selects one of the black-and-white lookups. */
  lemma NeverMonochrome(pal: seq<byte>, colors: seq<Color>, data: seq<byte>, q: Quality, reqColors: nat,
                        largest: Largest, rep: Rep, optimize: bool)
    requires |data| % DEPTH == 0 && PaletteFor(colors, HistogramOf(data, q), reqColors, largest, rep)
             && Holds(pal, colors)
    ensures SelectLookup(pal, |colors|, optimize) == if optimize then LkFast else LkNormal
  {
    hide PaletteFor;
    if |colors| == 2 {
      PaletteIsDim(colors, data, q, reqColors, largest, rep, 0);
      PaletteIsDim(colors, data, q, reqColors, largest, rep, 1);
      assert PixelAt(pal, 0) == colors[0] && PixelAt(pal, 1) == colors[1];
    }
  }

  // ---- the object ----------------------------------------------------------------------------

  class DitherContext {
    var palette: array<byte>
    var cachetable: array?<ushort>
    var reqcolors: int
    var ncolors: int
    var origcolors: int
    var optimized: bool
    var optimizePalette: bool
    var complexion: int
    var methodForLargest: Largest
    var methodForRep: Rep
    var methodForDiffuse: DiffuseMethod
    var qualityMode: Quality

    ghost predicate Valid()
      reads this, palette, cachetable
    {
      && 1 <= reqcolors <= PALETTE_MAX && palette.Length == DEPTH * reqcolors
      && 0 <= ncolors <= reqcolors && complexion >= MIN_COMPLEXION
      && cachetable as object? != palette
      && (cachetable != null ==>
            && cachetable.Length == BUCKETS
            && forall h :: 0 <= h < BUCKETS ==> cachetable[h] <= ncolors)
    }

    /** What a fresh object looks like before `Initialize`. */
    ghost predicate Fresh()
      reads this, palette, cachetable
    {
      Valid() && cachetable == null && ncolors == reqcolors
    }

    /** The successful outcomes of `sixel_dither_new`: a negative count asks for the maximum. */
    constructor (ncolors: int)
      requires ncolors < 0 || 1 <= ncolors <= PALETTE_MAX
      ensures Fresh() && fresh(palette) && complexion == 1 && !optimized && !optimizePalette
      ensures reqcolors == if ncolors < 0 then PALETTE_MAX else ncolors
      ensures methodForDiffuse == DiffuseFS
      ensures qualityMode == if ncolors < 0 then QualityHighColor else QualityLow
    {
      var n := if ncolors < 0 then PALETTE_MAX else ncolors;
      palette := new byte[DEPTH * n](_ => 0);
      cachetable := null;
      reqcolors, this.ncolors, origcolors := n, n, -1;
      optimized, optimizePalette, complexion := false, false, 1;
      methodForLargest, methodForRep, methodForDiffuse := LargeNorm, RepCenterBox, DiffuseFS;
      qualityMode := if ncolors < 0 then QualityHighColor else QualityLow;
    }

    /** The palette holds `colors`, made from the histogram of `data`. */
    ghost predicate Generated(data: seq<byte>, colors: seq<Color>)
      requires |data| % DEPTH == 0
      reads this, palette
    {
      && ncolors == |colors| <= reqcolors
      && PaletteFor(colors, HistogramOf(data, qualityMode), reqcolors, methodForLargest, methodForRep)
      && Holds(palette[..], colors)
    }

    /** The three setters that `sixel_dither_initialize` calls. */
    method SetMethods(largest: LargestChoice, rep: RepChoice, quality: Quality)
      modifies this`methodForLargest, this`methodForRep, this`qualityMode
      ensures methodForLargest == match largest case LargestAuto => LargeNorm case LargestIs(m) => m
      ensures methodForRep == match rep case RepAuto => RepCenterBox case RepIs(r) => r
      ensures qualityMode == if quality != QualityAuto then quality
                             else if ncolors <= 8 then QualityHigh else QualityLow
    {
      match largest {
        case LargestAuto => methodForLargest := LargeNorm;
        case LargestIs(m) => methodForLargest := m;
      }
      match rep {
        case RepAuto => methodForRep := RepCenterBox;
        case RepIs(r) => methodForRep := r;
      }
      if quality != QualityAuto {
        qualityMode := quality;
      } else if ncolors <= 8 {
        qualityMode := QualityHigh;
      } else {
        qualityMode := QualityLow;
      }
    }

    /** `sixel_dither_initialize` for RGB888 pixels. */
    method Initialize(data: array<byte>, largest: LargestChoice, rep: RepChoice, quality: Quality)
      returns (status: SplitStatus, ghost colors: seq<Color>)
      requires Valid() && cachetable == null && data != palette && data.Length % DEPTH == 0
      modifies this, palette
      ensures palette == old(palette) && cachetable == null && reqcolors == old(reqcolors)
      ensures complexion == old(complexion) && optimizePalette == old(optimizePalette) && Valid()
      ensures methodForLargest == match largest case LargestAuto => LargeNorm case LargestIs(m) => m
      ensures methodForRep == match rep case RepAuto => RepCenterBox case RepIs(r) => r
      ensures qualityMode == if quality != QualityAuto then quality
                             else if old(ncolors) <= 8 then QualityHigh else QualityLow
      ensures status == SplitLogicError ==> largest == LargestIs(LargeOther)
      ensures status == SplitOk ==>
                && Generated(data[..], colors)
                && optimized && origcolors == |HistogramOf(data[..], qualityMode)|
                && (if origcolors <= reqcolors then methodForDiffuse == DiffuseNone
                    else methodForDiffuse == old(methodForDiffuse))
      // the default methods make the colours the midpoints of their boxes
      ensures status == SplitOk && largest == LargestAuto && rep == RepAuto && origcolors > reqcolors ==>
                CentralPalette(palette[..], ncolors, HistogramOf(data[..], qualityMode))
    {
      hide PaletteFor, HistogramOf, Holds, CentralPalette;
      SetMethods(largest, rep, quality);
      var buf, made, orig;
      status, buf, made, orig, colors := MakePalette(data, reqcolors, methodForLargest, methodForRep, qualityMode);
      if status != SplitOk {
        return;
      }
      ncolors, origcolors := made, orig;
      CopyPalette(palette, buf, made);
      HoldsCopied(palette[..], buf[..], colors);
      optimized := true;
      if origcolors <= ncolors {
        methodForDiffuse := DiffuseNone;
      }
      CountsDecide(colors, data[..], qualityMode, reqcolors, methodForLargest, methodForRep);
      if largest == LargestAuto && rep == RepAuto && origcolors > reqcolors {
        DefaultIsCentral(palette[..], colors, HistogramOf(data[..], qualityMode), reqcolors);
      }
    }

    /** `sixel_dither_apply_palette` for RGB888 pixels; a null result is a refused call. */
    method Apply(pixels: array<byte>, width: int, height: int,
                 maskA: (int, int, nat, byte) -> int, maskX: (int, int, nat, byte) -> int)
      returns (dest: array?<byte>)
      requires Valid() && width >= 0 && height >= 0 && pixels.Length == DEPTH * (width * height)
      requires pixels != palette && cachetable as object? != pixels
      modifies this, palette, pixels, cachetable
      ensures palette == old(palette) && complexion == old(complexion) && reqcolors == old(reqcolors)
      ensures optimized == (old(optimized) && qualityMode != QualityFull) && qualityMode == old(qualityMode)
      ensures dest == null || !optimizePalette ==> Valid()
      ensures var o := Options(methodForDiffuse, optimized, optimizePalette, complexion, maskA, maskX);
              && methodForDiffuse == old(methodForDiffuse) && optimizePalette == old(optimizePalette)
              && (dest == null <==> Refused(old(palette[..]), old(ncolors), o))
              && (dest != null ==>
                    fresh(dest) && Outcome(old(palette[..]), old(ncolors), width, height, o, old(pixels[..]),
                                           old(Contents(cachetable)), old(cachetable != null), dest[..],
                                           palette[..], ncolors,
                                           Contents(cachetable)))
    {
      hide Refused, ScanTo, PlainResult, CompactResult, Fits, Outcome;
      ghost var pal, data, table, hadTable, count := palette[..], pixels[..], Contents(cachetable),
          cachetable != null, ncolors;
      dest := new byte[width * height](_ => 0);
      if qualityMode == QualityFull {
        optimized := false;
      }
      if cachetable == null && optimized {
        cachetable := new ushort[BUCKETS](_ => 0);
      }
      var o := Options(methodForDiffuse, optimized, optimizePalette, complexion, maskA, maskX);
      ghost var cache := Contents(cachetable);
      var status, n := QuantApplyPalette(dest, pixels, width, height, palette, ncolors, o, cachetable);
      if status != SixelOk {
        dest := null;
        return;
      }
      ncolors := n;
      OutcomeIntro(pal, count, width, height, o, data, table, hadTable, cache, dest[..], palette[..], n,
          Contents(cachetable));
    }
  }

  lemma OutcomeIntro(pal: seq<byte>, ncolors: int, width: int, height: int, o: Options, data: seq<byte>,
                     table: seq<ushort>, hadTable: bool, cache: seq<ushort>, result: seq<byte>, newPal: seq<byte>,
                     newCount: int, newTable: seq<ushort>)
    requires 0 <= ncolors && DEPTH * ncolors <= |pal|
    requires hadTable ==> cache == table
    requires !hadTable ==> (if o.optimize then ZeroCache(cache) else cache == [])
    requires var job := JobFor(pal, width, height, ncolors, o);
             var start := StartCache(cache, hadTable || o.optimize, job.lookup);
             && Drawn(job, State(data, start, []), o.optimizePalette, result, newPal, newCount)
             && (hadTable || o.optimize ==> newTable == ScanTo(job, State(data, start, []), job.size).cache)
    ensures Outcome(pal, ncolors, width, height, o, data, table, hadTable, result, newPal, newCount, newTable)
  {
    hide ScanTo, Drawn;
    var job := JobFor(pal, width, height, ncolors, o);
    var start := StartCache(cache, hadTable || o.optimize, job.lookup);
    assert Drawn(job, State(data, start, []), o.optimizePalette, result, newPal, newCount);
  }

  /** What an accepted call of `Apply` returns. */
  ghost predicate Outcome(pal: seq<byte>, ncolors: int, width: int, height: int, o: Options, data: seq<byte>,
                          table: seq<ushort>, hadTable: bool, result: seq<byte>, newPal: seq<byte>, newCount: int,
                          newTable: seq<ushort>)
  {
    && 0 <= ncolors && DEPTH * ncolors <= |pal|
    && var job := JobFor(pal, width, height, ncolors, o);
       exists cache :: (hadTable ==> cache == table) && (!hadTable && o.optimize ==> ZeroCache(cache))
                       && Drawn(job, State(data, cache, []), o.optimizePalette, result, newPal, newCount)
                       && (hadTable || o.optimize ==> newTable == ScanTo(job, State(data, cache, []), job.size).cache)
  }

  ghost predicate ZeroCache(cache: seq<ushort>) {
    |cache| == BUCKETS && forall h :: 0 <= h < BUCKETS ==> cache[h] == 0
  }

  /** The result of the scan of `job` from `s`, stored plainly or compacted. */
  ghost predicate Drawn(job: Job, s: State, compacted: bool, result: seq<byte>, newPal: seq<byte>, newCount: int) {
    && Fits(job, s) && s.indices == []
    && if compacted
       then CompactResult(ScanTo(job, s, job.size).indices, job.palette, result, newPal, newCount)
       else PlainResult(ScanTo(job, s, job.size).indices, result) && newPal == job.palette && newCount == job.reqcolor
  }

  /**
    An accepted call with the cached lookup that does not compact the palette is
    one of the calls of `CacheAfterCalls`: the palette and its size stay, and the
    table goes from the caller's, or a zeroed one, to what the call leaves behind.
    `job` fixes palette, complexion and lookup; size, kernel and mask are the call's.
   */
  lemma OutcomeIsCall(job: Job, pal: seq<byte>, ncolors: int, width: int, height: int, o: Options, data: seq<byte>,
                      table: seq<ushort>, hadTable: bool, result: seq<byte>, newPal: seq<byte>, newCount: int,
                      newTable: seq<ushort>) returns (before: seq<ushort>)
    requires Outcome(pal, ncolors, width, height, o, data, table, hadTable, result, newPal, newCount, newTable)
    requires JobFor(pal, width, height, ncolors, o).lookup == LkFast && !o.optimizePalette
    requires job.palette == pal && job.reqcolor == ncolors && job.complexion == o.complexion && job.lookup == LkFast
    requires job.depth == DEPTH
    ensures newPal == pal && newCount == ncolors
    ensures if hadTable then before == table else ZeroCache(before)
    ensures var c := Call(width, height, data, SelectKernel(o.diffuse, width), SelectMask(o));
            && Callable(job, c) && CacheInRange(job, before) && newTable == CacheAfterCall(job, c, before)
            && (forall i: nat | i < |result| ::
                  i < JobOf(job, c).size && result[i] as int == IndexIn(job, c, before, i))
  {
    hide ScanTo, SelectMask, SelectKernel;
    var here := JobFor(pal, width, height, ncolors, o);
    var cache :| (hadTable ==> cache == table) && (!hadTable && o.optimize ==> ZeroCache(cache))
        && Drawn(here, State(data, cache, []), o.optimizePalette, result, newPal, newCount)
        && (hadTable || o.optimize ==> newTable == ScanTo(here, State(data, cache, []), here.size).cache);
    before := cache;
    var c := Call(width, height, data, SelectKernel(o.diffuse, width), SelectMask(o));
    assert JobOf(job, c) == here;
  }

  lemma HoldsCopied(pal: seq<byte>, buf: seq<byte>, colors: seq<Color>)
    requires Holds(buf, colors) && DEPTH * |colors| <= |pal|
    requires forall k: nat | k < |colors| :: PixelAt(pal, k) == PixelAt(buf, k)
    ensures Holds(pal, colors)
  {
  }

  /** The palette is as long as the histogram or the request, whichever is shorter. */
  lemma CountsDecide(colors: seq<Color>, data: seq<byte>, q: Quality, reqColors: nat, largest: Largest, rep: Rep)
    requires |data| % DEPTH == 0 && PaletteFor(colors, HistogramOf(data, q), reqColors, largest, rep)
    ensures |HistogramOf(data, q)| <= |colors| <==> |HistogramOf(data, q)| <= reqColors
  {
  }

  // ---- initialise, then apply ---------------------------------------------------------------------

  /** Every pixel is drawn within `factor * (complexion + 2)` of itself. */
  ghost predicate AllClose(data: seq<byte>, result: seq<byte>, pal: seq<byte>, ncolors: int, complexion: int,
                           factor: int) {
    && |data| == DEPTH * |result|
    && forall pos: nat | pos < |result| ::
         && 0 <= result[pos] < ncolors && DEPTH * result[pos] + 2 < |pal|
         && Dist(PixelAt(data, pos), PixelAt(pal, result[pos]), complexion) <= factor * (complexion + 2)
  }

  /** The indices of a scan are byte-sized palette indices. */
  lemma PlainBytes(job: Job, s: State) returns (plain: seq<byte>)
    requires Fits(job, s) && s.indices == []
    ensures PlainResult(ScanTo(job, s, job.size).indices, plain)
    ensures |plain| == job.size && forall i :: 0 <= i < |plain| ==> 0 <= plain[i] < job.reqcolor
  {
    var idx := ScanTo(job, s, job.size).indices;
    forall i | 0 <= i < |idx|
      ensures 0 <= idx[i] < job.reqcolor
    {
      RecordedAnswer(job, s, i);
    }
    plain := seq(|idx|, i requires 0 <= i < |idx| => idx[i] as byte);
  }

  /** An undiffused scan over covered pixels stores a close picture, compacted or not. */
  lemma DrawnIsClose(job: Job, s: State, compacted: bool, result: seq<byte>, newPal: seq<byte>, newCount: int)
    requires Undiffused(job, s) && Drawn(job, s, compacted, result, newPal, newCount)
    requires forall pos: nat | pos < job.size :: Covered(PixelAt(s.data, pos), job.palette, job.reqcolor)
    ensures AllClose(s.data, result, newPal, newCount, job.complexion, BoundFactor(job.lookup))
  {
    hide ScanTo, Dist, Covered, CompactResult, CacheSound, BoundFactor, PlainResult;
    var plain := PlainBytes(job, s);
    PlainIsClose(job, s, plain);
    if compacted {
      OptimizingDrawsTheSamePicture(job, s, plain, result, newPal, newCount);
      CompactIsClose(s.data, plain, result, job.palette, newPal, job.reqcolor, newCount, job.complexion,
                     BoundFactor(job.lookup));
    } else {
      SamePlain(ScanTo(job, s, job.size).indices, plain, result);
    }
  }

  lemma CompactIsClose(data: seq<byte>, plain: seq<byte>, result: seq<byte>, pal: seq<byte>, kept: seq<byte>, n: int,
                       ncolors: int, complexion: int, factor: int)
    requires AllClose(data, plain, pal, n, complexion, factor) && |plain| == |result|
    requires DEPTH * ncolors <= |kept|
    requires forall pos: nat | pos < |result| ::
               0 <= result[pos] < ncolors && DEPTH * plain[pos] + 2 < |pal|
                   && PixelAt(kept, result[pos]) == PixelAt(pal, plain[pos])
    ensures AllClose(data, result, kept, ncolors, complexion, factor)
  {
    hide Dist, PixelAt;
  }

  lemma SamePlain(idx: seq<int>, a: seq<byte>, b: seq<byte>)
    requires PlainResult(idx, a) && PlainResult(idx, b)
    ensures a == b
  {
  }

  lemma PlainIsClose(job: Job, s: State, plain: seq<byte>)
    requires Undiffused(job, s) && PlainResult(ScanTo(job, s, job.size).indices, plain)
    requires forall i :: 0 <= i < |plain| ==> 0 <= plain[i] < job.reqcolor
    requires forall pos: nat | pos < job.size :: Covered(PixelAt(s.data, pos), job.palette, job.reqcolor)
    ensures AllClose(s.data, plain, job.palette, job.reqcolor, job.complexion, BoundFactor(job.lookup))
  {
    hide ScanTo, Dist, Covered, CacheSound, BoundFactor;
    forall pos: nat | pos < job.size
      ensures Dist(PixelAt(s.data, pos), PixelAt(job.palette, plain[pos]), job.complexion)
              <= BoundFactor(job.lookup) * (job.complexion + 2)
    {
      CoveredScanIsClose(job, s, pos);
    }
  }

  /**
    The two calls in sequence.  If every pixel is sampled and the image has no
    more buckets than colours were requested, every pixel is drawn within
    49 * (complexion + 2) of itself by the exact lookup, and within
    196 * (complexion + 2) by the cached one, whichever quality mode picks it.
   */
  method InitializeAndApply(d: DitherContext, pixels: array<byte>, width: int, height: int, largest: LargestChoice,
                            rep: RepChoice, quality: Quality,
                            maskA: (int, int, nat, byte) -> int, maskX: (int, int, nat, byte) -> int)
    returns (status: SplitStatus, dest: array?<byte>)
    requires d.Fresh() && width >= 0 && height >= 0 && pixels.Length == DEPTH * (width * height) && pixels != d.palette
    modifies d, d.palette, pixels
    ensures d.palette == old(d.palette)
    ensures status == SplitLogicError ==> dest == null && largest == LargestIs(LargeOther)
    ensures status == SplitOk ==> (dest == null <==> width * height == 0 || d.complexion > MAX_COMPLEXION)
    ensures d.qualityMode == if quality != QualityAuto then quality
                             else if old(d.ncolors) <= 8 then QualityHigh else QualityLow
    ensures var q := d.qualityMode;
            && dest != null && d.complexion >= 1
            && width * height < (match q case QualityLow => 36766 case QualityHigh => 2236766 case _ => 8006158)
            && |HistogramOf(old(pixels[..]), q)| <= old(d.reqcolors) ==>
              AllClose(old(pixels[..]), dest[..], d.palette[..], d.ncolors, d.complexion,
                       if q == QualityFull then 49 else 196)
  {
    hide HistogramOf, PaletteFor, Drawn, AllClose, Holds;
    ghost var colors;
    ghost var data := pixels[..];
    assert pixels.Length % DEPTH == 0 && pixels.Length / DEPTH == width * height;
    status, colors := d.Initialize(pixels, largest, rep, quality);
    dest := null;
    if status != SplitOk {
      return;
    }
    ghost var pal, n, q, req := d.palette[..], d.ncolors, d.qualityMode, d.reqcolors;
    ghost var largest', rep' := d.methodForLargest, d.methodForRep;
    ghost var kernel := d.methodForDiffuse;
    dest := d.Apply(pixels, width, height, maskA, maskX);
    ghost var o := Options(d.methodForDiffuse, d.optimized, d.optimizePalette, d.complexion, maskA, maskX);
    RefusedWhen(pal, colors, data, q, req, largest', rep', o);
    if dest != null && d.complexion >= 1 && |HistogramOf(data, q)| <= req
       && width * height < (match q case QualityLow => 36766 case QualityHigh => 2236766 case _ => 8006158) {
      OutcomeIsClose(pal, colors, data, q, req, largest', rep', width, height, o, dest[..], d.palette[..], d.ncolors,
                     Contents(d.cachetable));
    }
  }

  /** When a call with a generated palette is refused. */
  lemma RefusedWhen(pal: seq<byte>, colors: seq<Color>, data: seq<byte>, q: Quality, req: nat, largest: Largest,
                    rep: Rep, o: Options)
    requires |data| % DEPTH == 0 && PaletteFor(colors, HistogramOf(data, q), req, largest, rep) && Holds(pal, colors)
             && req >= 1
    ensures Refused(pal, |colors|, o) <==> |data| == 0 || o.complexion > MAX_COMPLEXION
  {
    hide PaletteFor, HistogramOf;
    NeverMonochrome(pal, colors, data, q, req, largest, rep, o.optimize);
    NoColorsWhen(colors, data, q, req, largest, rep);
  }

  /** A generated palette is empty exactly for an empty image. */
  lemma NoColorsWhen(colors: seq<Color>, data: seq<byte>, q: Quality, req: nat, largest: Largest, rep: Rep)
    requires |data| % DEPTH == 0 && PaletteFor(colors, HistogramOf(data, q), req, largest, rep) && req >= 1
    ensures colors == [] <==> |data| == 0
  {
    hide MedianCutPalette, Hash;
    var hs := Samples(data, |data| / DEPTH, q);
    if |data| > 0 {
      assert |hs| > 0;
      assert hs[0] in hs;
      assert hs[0] in FirstUse(hs);
    }
  }

  /** The bound for one accepted call with a palette that fits the whole image. */
  lemma OutcomeIsClose(pal: seq<byte>, colors: seq<Color>, data: seq<byte>, q: Quality, req: nat, largest: Largest,
                       rep: Rep, width: int, height: int, o: Options, result: seq<byte>, newPal: seq<byte>,
                       newCount: int, newTable: seq<ushort>)
    requires |data| % DEPTH == 0 && width >= 0 && height >= 0 && |data| == DEPTH * (width * height)
    requires PaletteFor(colors, HistogramOf(data, q), req, largest, rep) && Holds(pal, colors)
    requires |HistogramOf(data, q)| <= req
    requires |data| / DEPTH < match q case QualityLow => 36766 case QualityHigh => 2236766 case _ => 8006158
    requires o.diffuse == DiffuseNone && 1 <= o.complexion
    requires Outcome(pal, |colors|, width, height, o, data, [], false, result, newPal, newCount, newTable)
    ensures AllClose(data, result, newPal, newCount, o.complexion, if o.optimize then 196 else 49)
  {
    hide PaletteFor, HistogramOf, Drawn, AllClose, Holds, ScanTo, Covered, SelectLookup;
    var job := JobFor(pal, width, height, |colors|, o);
    var cache :| (o.optimize ==> ZeroCache(cache))
        && Drawn(job, State(data, cache, []), o.optimizePalette, result, newPal, newCount);
    var s := State(data, cache, []);
    NeverMonochrome(pal, colors, data, q, req, largest, rep, o.optimize);
    forall pos: nat | pos < job.size
      ensures Covered(PixelAt(data, pos), pal, |colors|)
    {
      PaletteCovers(data, q, req, largest, rep, colors, pal, pos);
    }
    DrawnFits(job, s, o.optimizePalette, result, newPal, newCount);
    if o.optimize {
      ZeroCacheSound(cache, pal, |colors|, o.complexion);
    }
    DrawnIsClose(job, s, o.optimizePalette, result, newPal, newCount);
  }

  lemma DrawnFits(job: Job, s: State, compacted: bool, result: seq<byte>, newPal: seq<byte>, newCount: int)
    requires Drawn(job, s, compacted, result, newPal, newCount)
    ensures Fits(job, s) && s.indices == []
  {
  }
}
