/** `sixel_quant_apply_palette`: the in-place raster scan, plain and with palette compaction. */
module ApplyPalette {
  import opened CArithmetic
  import opened CacheProperties
  import opened Colors
  import opened Compaction
  import opened Diffusion
  import opened FirstUses
  import opened Lookup
  import opened Scan
  import opened ScanProperties

  /** The contents of an optional table. */
  ghost function Contents(t: array?<ushort>): seq<ushort>
    reads t
  {
    if t == null then [] else t[..]
  }

  /** The buffers of a call do not overlap. */
  ghost predicate Separate(data: array<byte>, palette: array<byte>, table: array?<ushort>) {
    data != palette && table as object? != data && table as object? != palette
  }

  /** The call through `f_lookup`. */
  method LookUp(ghost job: Job, pixel: Color, palette: array<byte>, cachetable: array?<ushort>,
                lookup: LookupKind, reqcolor: int, complexion: int)
    returns (index: int)
    requires job.Valid() && palette[..] == job.palette && job.lookup == lookup
    requires job.reqcolor == reqcolor && job.complexion == complexion
    requires lookup == LkNormal || lookup == LkFast ==> MIN_COMPLEXION <= complexion <= MAX_COMPLEXION
    requires lookup == LkFast ==> cachetable != null
    requires CacheInRange(job, Contents(cachetable))
    requires cachetable as object? != palette
    modifies cachetable
    ensures index == Answer(job, pixel, old(Contents(cachetable)))
    ensures Contents(cachetable) == CacheAfter(job, pixel, old(Contents(cachetable)))
  {
    match lookup
    case LkNormal =>
      index := LookupNormal(pixel, palette, reqcolor, complexion);
    case LkFast =>
      index := LookupFast(pixel, palette, reqcolor, cachetable, complexion);
    case LkMonoDark =>
      var distant := pixel.c0 + pixel.c1 + pixel.c2;
      index := if distant >= 128 * reqcolor then 1 else 0;
    case LkMonoLight =>
      var distant := pixel.c0 + pixel.c1 + pixel.c2;
      index := if distant < 128 * reqcolor then 1 else 0;
  }

  /** The pixel handed to the lookup: read in place, or copied through the mask. */
  method ReadPixel(data: array<byte>, mask: Mask, x: int, y: int, pos: nat) returns (pixel: Color)
    requires DEPTH * pos + 2 < data.Length
    ensures forall job: Job | job.mask == mask :: pixel == Probe(job, PixelAt(data[..], pos), x, y)
  {
    pixel := Color(data[pos * DEPTH + 0], data[pos * DEPTH + 1], data[pos * DEPTH + 2]);
    if mask.Masked? {
      var n := 0;
      ghost var p := pixel;
      while n < DEPTH
        invariant 0 <= n <= DEPTH
        invariant forall k: nat | k < DEPTH ::
          Plane(pixel, k) == if k < n then ClampByte(mask.val(x, y, k, Plane(p, k))) else Plane(p, k)
      {
        var val := mask.val(x, y, n, data[pos * DEPTH + n]);
        pixel := SetPlane(pixel, n, if val < 0 then 0 else if val > 255 then 255 else val);
        n := n + 1;
      }
      assert Plane(pixel, 0) == pixel.c0 && Plane(pixel, 1) == pixel.c1 && Plane(pixel, 2) == pixel.c2;
    }
  }

  /** The inner loop that diffuses the three planes of one pixel. */
  method DiffusePixel(ghost job: Job, data: array<byte>, palette: array<byte>, kernel: Kernel,
                      width: int, height: int, x: int, y: int, index: nat)
    requires job.Valid() && palette[..] == job.palette && job.kernel == kernel
    requires job.width == width && job.height == height && data.Length == DEPTH * (width * height)
    requires 0 <= x < width && 0 <= y < height && 0 <= y * width + x < width * height
    requires index < job.reqcolor && data != palette
    modifies data
    ensures data[..] == DiffusePlanes(job, old(data[..]), x, y, index, job.depth)
  {
    hide Diffuse, Fires;
    var pos := y * width + x;
    var n := 0;
    while n < DEPTH
      invariant 0 <= n <= DEPTH
      invariant data[..] == DiffusePlanes(job, old(data[..]), x, y, index, n)
      invariant palette[..] == job.palette
    {
      var offset := data[pos * DEPTH + n] as int - palette[index * DEPTH + n] as int;
      DiffuseWith(kernel, data, n, width, height, x, y, offset);
      n := n + 1;
    }
  }

  // ---- the plain path ------------------------------------------------------------------

  /** `job` describes the call whose arguments are given. */
  ghost predicate Describes(job: Job, palette: seq<byte>, width: int, height: int, reqcolor: int, kernel: Kernel,
                            mask: Mask, lookup: LookupKind, complexion: int) {
    && job.Valid()
    && job.palette == palette && job.width == width && job.height == height && job.reqcolor == reqcolor
    && job.kernel == kernel && job.mask == mask && job.lookup == lookup && job.complexion == complexion
    && (lookup == LkNormal || lookup == LkFast ==> MIN_COMPLEXION <= complexion <= MAX_COMPLEXION)
  }

  /** The buffer and the cache are those after `n` pixels. */
  ghost predicate Reached(job: Job, s: State, n: int, data: seq<byte>, cache: seq<ushort>)
    requires Fits(job, s) && s.indices == []
  {
    && 0 <= n <= job.size
    && data == ScanTo(job, s, n).data
    && cache == ScanTo(job, s, n).cache
  }

  /** Looking a pixel up and diffusing it is one step of the scan. */
  lemma PixelStep(job: Job, s: State, x: int, y: int, data: seq<byte>, cache: seq<ushort>, index: int)
    requires Fits(job, s) && s.indices == [] && 0 <= x < job.width && 0 <= y && 0 <= y * job.width + x < job.size
    requires Reached(job, s, y * job.width + x, data, cache)
    requires index == Answer(job, Probe(job, PixelAt(data, y * job.width + x), x, y), cache)
    ensures var pos := y * job.width + x;
            && ScanTo(job, s, pos + 1).indices == ScanTo(job, s, pos).indices + [index]
            && Reached(job, s, pos + 1, DiffusePlanes(job, data, x, y, index, job.depth),
                       CacheAfter(job, Probe(job, PixelAt(data, pos), x, y), cache))
  {
    hide ScanTo, Step, Answer, CacheAfter, DiffusePlanes, Probe, Row, Col, PixelAt;
    RasterUnique(x, y, job.width);
    StepFields(job, s, y * job.width + x);
  }

  lemma ScanStart(job: Job, s: State)
    requires Fits(job, s) && s.indices == []
    ensures ScanTo(job, s, 0) == s
  {
  }

  lemma InImage(x: int, y: int, width: int, height: int)
    requires 0 <= x < width && 0 <= y < height
    ensures 0 <= y * width + x < width * height
    ensures y * width + width == (y + 1) * width
  {
    RowsBelow(width, height, y, 0);
    assert 0 <= y * width;
  }

  /** The first `n` cells of `result` hold the indices of the scan. */
  ghost predicate Stored(job: Job, s: State, n: int, result: seq<byte>)
    requires Fits(job, s) && s.indices == []
  {
    0 <= n <= job.size && n <= |result| && forall i :: 0 <= i < n ==> result[i] == ScanTo(job, s, n).indices[i]
  }

  lemma StoredNext(job: Job, s: State, n: nat, before: seq<byte>, after: seq<byte>, index: byte)
    requires Fits(job, s) && s.indices == [] && n < job.size && n < |before|
    requires Stored(job, s, n, before) && after == before[n := index]
    requires ScanTo(job, s, n + 1).indices == ScanTo(job, s, n).indices + [index as int]
    ensures Stored(job, s, n + 1, after)
  {
    hide ScanTo;
  }

  /** The body of the loops that store the indices themselves. */
  method PixelPlain(ghost job: Job, ghost s: State, result: array<byte>, data: array<byte>, palette: array<byte>,
                    indextable: array?<ushort>, width: int, height: int, reqcolor: int, kernel: Kernel, mask: Mask,
                    lookup: LookupKind, complexion: int, x: int, y: int)
    requires Describes(job, palette[..], width, height, reqcolor, kernel, mask, lookup, complexion)
    requires Fits(job, s) && s.indices == [] && data.Length == DEPTH * (width * height)
    requires lookup == LkFast ==> indextable != null
    requires result.Length == width * height && Separate(data, palette, indextable)
             && Separate(result, palette, indextable)
    requires result != data
    requires 0 <= x < width && 0 <= y < height && 0 <= y * width + x < width * height
    requires Reached(job, s, y * width + x, data[..], Contents(indextable))
    requires Stored(job, s, y * width + x, result[..])
    modifies result, data, indextable
    ensures Reached(job, s, y * width + x + 1, data[..], Contents(indextable))
    ensures Stored(job, s, y * width + x + 1, result[..])
  {
    hide ScanTo, Step, Answer, CacheAfter, CacheInRange, DiffusePlanes, Probe, Stored;
    var pos := y * width + x;
    ghost var d, c, r := data[..], Contents(indextable), result[..];
    var pixel := ReadPixel(data, mask, x, y, pos);
    var index := LookUp(job, pixel, palette, indextable, lookup, reqcolor, complexion);
    PixelStep(job, s, x, y, d, c, index);
    result[pos] := index;
    StoredNext(job, s, pos, r, result[..], index);
    DiffusePixel(job, data, palette, kernel, width, height, x, y, index);
  }

  /** One row of the plain scan. */
  method RowPlain(ghost job: Job, ghost s: State, result: array<byte>, data: array<byte>, palette: array<byte>,
                  indextable: array?<ushort>, width: int, height: int, reqcolor: int, kernel: Kernel, mask: Mask,
                  lookup: LookupKind, complexion: int, y: int)
    requires Describes(job, palette[..], width, height, reqcolor, kernel, mask, lookup, complexion)
    requires Fits(job, s) && s.indices == [] && data.Length == DEPTH * (width * height)
    requires lookup == LkFast ==> indextable != null
    requires result.Length == width * height && Separate(data, palette, indextable)
             && Separate(result, palette, indextable)
    requires result != data && 0 <= y < height
    requires Reached(job, s, y * width, data[..], Contents(indextable)) && Stored(job, s, y * width, result[..])
    modifies result, data, indextable
    ensures Reached(job, s, y * width + width, data[..], Contents(indextable))
    ensures Stored(job, s, y * width + width, result[..])
  {
    hide Reached, Stored, Fits;
    var x := 0;
    while x < width
      invariant 0 <= x <= width
      invariant Reached(job, s, y * width + x, data[..], Contents(indextable))
      invariant Stored(job, s, y * width + x, result[..])
      invariant palette[..] == job.palette
    {
      InImage(x, y, width, height);
      PixelPlain(job, s, result, data, palette, indextable, width, height, reqcolor, kernel, mask, lookup,
                 complexion, x, y);
      x := x + 1;
    }
  }

  /** The branch of the scan that stores the indices themselves. */
  method ScanPlain(ghost job: Job, ghost s: State, result: array<byte>, data: array<byte>, palette: array<byte>,
                   indextable: array?<ushort>, width: int, height: int, reqcolor: int, kernel: Kernel, mask: Mask,
                   lookup: LookupKind, complexion: int)
    requires Describes(job, palette[..], width, height, reqcolor, kernel, mask, lookup, complexion)
    requires Fits(job, s) && s.indices == [] && data[..] == s.data && Contents(indextable) == s.cache
    requires lookup == LkFast ==> indextable != null
    requires result.Length == width * height && Separate(data, palette, indextable)
             && Separate(result, palette, indextable)
    requires result != data
    modifies result, data, indextable
    ensures Reached(job, s, job.size, data[..], Contents(indextable))
    ensures PlainResult(ScanTo(job, s, job.size).indices, result[..])
  {
    hide ScanTo, Reached;
    var y := 0;
    AtStart(job, s, data[..], Contents(indextable), result[..]);
    assert y * width == 0;
    while y < height
      invariant 0 <= y <= height
      invariant Reached(job, s, y * width, data[..], Contents(indextable))
      invariant Stored(job, s, y * width, result[..])
      invariant palette[..] == job.palette
    {
      RowPlain(job, s, result, data, palette, indextable, width, height, reqcolor, kernel, mask, lookup,
               complexion, y);
      assert y * width + width == (y + 1) * width;
      y := y + 1;
    }
  }

  lemma AtStart(job: Job, s: State, data: seq<byte>, cache: seq<ushort>, result: seq<byte>)
    requires Fits(job, s) && s.indices == [] && data == s.data && cache == s.cache
    ensures Reached(job, s, 0, data, cache) && Stored(job, s, 0, result)
  {
  }

  // ---- the compacting path ---------------------------------------------------------------

  const PALETTE_MAX := 256

  /** The migration map numbers the colours of `u` from 1 and leaves the others at 0. */
  ghost predicate Migrates(u: seq<int>, migration: seq<ushort>) {
    && |migration| == PALETTE_MAX
    && forall c: nat | c < PALETTE_MAX :: migration[c] == if c in u then Rank(u, c) + 1 else 0
  }

  /** The stored numbers are ranks in `u`. */
  ghost predicate Ranks(u: seq<int>, idx: seq<int>, result: seq<byte>) {
    && |idx| <= |result|
    && forall i :: 0 <= i < |idx| ==> idx[i] in u && result[i] == Rank(u, idx[i])
  }

  /** The new palette holds the colours of `u` in order. */
  ghost predicate Keeps(u: seq<int>, pal: seq<byte>, newPal: seq<byte>) {
    && |newPal| == PALETTE_MAX * 4 && |u| <= PALETTE_MAX
    && forall k: nat | k < |u| ::
         0 <= u[k] < PALETTE_MAX && DEPTH * u[k] + 2 < |pal| && PixelAt(newPal, k) == PixelAt(pal, u[k])
  }

  /** The compaction tables after the indices `idx`, all below PALETTE_MAX, were renumbered. */
  ghost predicate Renumbered(idx: seq<int>, pal: seq<byte>, result: seq<byte>, migration: seq<ushort>,
                             newPal: seq<byte>, ncolors: int) {
    var u := FirstUse(idx);
    && ncolors == |u|
    && Migrates(u, migration)
    && Ranks(u, idx, result)
    && Keeps(u, pal, newPal)
  }

  /** A colour that was seen before keeps its number. */
  lemma RenumberOld(idx: seq<int>, pal: seq<byte>, result: seq<byte>, result': seq<byte>, migration: seq<ushort>,
                    newPal: seq<byte>, ncolors: int, index: int)
    requires Renumbered(idx, pal, result, migration, newPal, ncolors)
    requires index in FirstUse(idx) && |idx| < |result| && 0 <= index < PALETTE_MAX
    requires migration[index] - 1 < 256 && result' == result[|idx| := migration[index] - 1]
    ensures Renumbered(idx + [index], pal, result', migration, newPal, ncolors)
  {
    hide FirstUse, Rank, Keeps, Migrates, Ranks;
    FirstUseSnoc(idx, index);
    RanksOld(FirstUse(idx), idx, result, result', migration, index);
  }

  lemma RanksOld(u: seq<int>, idx: seq<int>, result: seq<byte>, result': seq<byte>, migration: seq<ushort>, x: int)
    requires Migrates(u, migration) && Ranks(u, idx, result)
    requires x in u && |idx| < |result| && 0 <= x < PALETTE_MAX
    requires migration[x] - 1 < 256 && result' == result[|idx| := migration[x] - 1]
    ensures Ranks(u, idx + [x], result')
  {
    hide Rank;
  }

  /** A new colour gets the next number; at most PALETTE_MAX - 1 colours were seen before. */
  lemma RoomForOneMore(idx: seq<int>, index: int)
    requires forall i :: 0 <= i < |FirstUse(idx)| ==> 0 <= FirstUse(idx)[i] < PALETTE_MAX
    requires 0 <= index < PALETTE_MAX && index !in idx
    ensures |FirstUse(idx)| < PALETTE_MAX
  {
    FirstUseSnoc(idx, index);
    DistinctBounded(FirstUse(idx + [index]), PALETTE_MAX);
  }

  lemma RankSnoc(u: seq<int>, x: int)
    requires x !in u
    ensures Rank(u + [x], x) == |u|
    ensures forall c :: c in u ==> Rank(u + [x], c) == Rank(u, c)
  {
    forall c | c in u
      ensures Rank(u + [x], c) == Rank(u, c)
    {
      RankOfPrefix(u, [x], c);
    }
    var r := Rank(u + [x], x);
    assert (u + [x])[|u|] == x;
  }

  lemma MigratesSnoc(u: seq<int>, m: seq<ushort>, m': seq<ushort>, x: int)
    requires Migrates(u, m) && x !in u && 0 <= x < PALETTE_MAX && |u| < PALETTE_MAX && m' == m[x := |u| + 1]
    ensures Migrates(u + [x], m')
  {
    hide Rank;
    RankSnoc(u, x);
  }

  lemma RanksSnoc(u: seq<int>, idx: seq<int>, result: seq<byte>, result': seq<byte>, x: int)
    requires Ranks(u, idx, result) && x !in u && |idx| < |result| && |u| < 256 && result' == result[|idx| := |u|]
    ensures Ranks(u + [x], idx + [x], result')
  {
    hide Rank;
    RankSnoc(u, x);
  }

  lemma KeepsSnoc(u: seq<int>, pal: seq<byte>, w: seq<byte>, w': seq<byte>, x: int)
    requires Keeps(u, pal, w) && |u| < PALETTE_MAX && |w'| == |w|
    requires 0 <= x < PALETTE_MAX && DEPTH * x + 2 < |pal| && PixelAt(w', |u|) == PixelAt(pal, x)
    requires forall k: nat | k < |u| :: PixelAt(w', k) == PixelAt(w, k)
    ensures Keeps(u + [x], pal, w')
  {
    hide PixelAt;
  }

  lemma RenumberNew(idx: seq<int>, pal: seq<byte>, result: seq<byte>, result': seq<byte>, migration: seq<ushort>,
                    migration': seq<ushort>, newPal: seq<byte>, newPal': seq<byte>, ncolors: int, index: int)
    requires Renumbered(idx, pal, result, migration, newPal, ncolors)
    requires index !in FirstUse(idx) && |idx| < |result| && 0 <= index < PALETTE_MAX && DEPTH * index + 2 < |pal|
    requires ncolors < PALETTE_MAX && result' == result[|idx| := ncolors]
    requires migration' == migration[index := ncolors + 1]
    requires |newPal'| == |newPal| && PixelAt(newPal', ncolors) == PixelAt(pal, index)
    requires forall k: nat | k < ncolors :: PixelAt(newPal', k) == PixelAt(newPal, k)
    ensures Renumbered(idx + [index], pal, result', migration', newPal', ncolors + 1)
  {
    hide FirstUse, Rank, PixelAt, Migrates, Ranks, Keeps, Renumbered;
    var u := FirstUse(idx);
    RenumberedParts(idx, pal, result, migration, newPal, ncolors);
    KeepsSnoc(u, pal, newPal, newPal', index);
    MigratesSnoc(u, migration, migration', index);
    RanksSnoc(u, idx, result, result', index);
    FirstUseSnoc(idx, index);
    Assembled(idx + [index], u + [index], pal, result', migration', newPal');
  }

  lemma RenumberedParts(idx: seq<int>, pal: seq<byte>, result: seq<byte>, migration: seq<ushort>, newPal: seq<byte>,
                        ncolors: int)
    requires Renumbered(idx, pal, result, migration, newPal, ncolors)
    ensures var u := FirstUse(idx);
            ncolors == |u| && Migrates(u, migration) && Ranks(u, idx, result) && Keeps(u, pal, newPal)
  {
    hide FirstUse, Migrates, Ranks, Keeps;
  }

  lemma Assembled(idx: seq<int>, u: seq<int>, pal: seq<byte>, result: seq<byte>, migration: seq<ushort>,
                  newPal: seq<byte>)
    requires u == FirstUse(idx) && Migrates(u, migration) && Ranks(u, idx, result) && Keeps(u, pal, newPal)
    ensures Renumbered(idx, pal, result, migration, newPal, |u|)
  {
    hide FirstUse, Migrates, Ranks, Keeps;
  }

  /** The renumbering of one pixel. */
  method Renumber(ghost idx: seq<int>, result: array<byte>, palette: array<byte>, migrationMap: array<ushort>,
                  newPalette: array<byte>, pos: nat, colorIndex: int, ncolors: int)
    returns (ncolors': int)
    requires pos == |idx| < result.Length
    requires 0 <= colorIndex < PALETTE_MAX && DEPTH * colorIndex + 2 < palette.Length
    requires result != palette && newPalette != palette && newPalette != result
    requires migrationMap as object != result && migrationMap as object != palette
             && migrationMap as object != newPalette
    requires Renumbered(idx, palette[..], result[..], migrationMap[..], newPalette[..], ncolors)
    modifies result, migrationMap, newPalette
    ensures Renumbered(idx + [colorIndex], palette[..], result[..], migrationMap[..], newPalette[..], ncolors')
  {
    hide FirstUse, Rank;
    ghost var r, m, w := result[..], migrationMap[..], newPalette[..];
    if migrationMap[colorIndex] == 0 {
      RoomForOneMore(idx, colorIndex);
      result[pos] := ncolors;
      var n := 0;
      while n < DEPTH
        invariant 0 <= n <= DEPTH
        invariant forall i :: 0 <= i < DEPTH * ncolors ==> newPalette[i] == w[i]
        invariant n > 0 ==> newPalette[ncolors * DEPTH] == palette[colorIndex * DEPTH]
        invariant n > 1 ==> newPalette[ncolors * DEPTH + 1] == palette[colorIndex * DEPTH + 1]
        invariant n > 2 ==> newPalette[ncolors * DEPTH + 2] == palette[colorIndex * DEPTH + 2]
        invariant result[..] == r[pos := ncolors as byte] && migrationMap[..] == m && palette[..] == old(palette[..])
      {
        newPalette[ncolors * DEPTH + n] := palette[colorIndex * DEPTH + n];
        n := n + 1;
      }
      ncolors' := ncolors + 1;
      migrationMap[colorIndex] := ncolors';
      RenumberNew(idx, palette[..], r, result[..], m, migrationMap[..], w, newPalette[..], ncolors, colorIndex);
    } else {
      result[pos] := migrationMap[colorIndex] - 1;
      ncolors' := ncolors;
      RenumberOld(idx, palette[..], r, result[..], m, w, ncolors, colorIndex);
    }
  }

  /** The body of the loops that renumber the indices. */
  method PixelCompact(ghost job: Job, ghost s: State, result: array<byte>, data: array<byte>, palette: array<byte>,
                      indextable: array?<ushort>, migrationMap: array<ushort>, newPalette: array<byte>,
                      width: int, height: int, reqcolor: int, kernel: Kernel, mask: Mask,
                      lookup: LookupKind, complexion: int, x: int, y: int, ncolors: int)
    returns (ncolors': int)
    requires Describes(job, palette[..], width, height, reqcolor, kernel, mask, lookup, complexion)
    requires Fits(job, s) && s.indices == [] && data.Length == DEPTH * (width * height)
    requires lookup == LkFast ==> indextable != null
    requires result.Length == width * height
    requires Distinct(result, data, palette, indextable, migrationMap, newPalette)
    requires 0 <= x < width && 0 <= y < height && 0 <= y * width + x < width * height
    requires Reached(job, s, y * width + x, data[..], Contents(indextable))
    requires Renumbered(ScanTo(job, s, y * width + x).indices, palette[..], result[..], migrationMap[..],
             newPalette[..], ncolors)
    modifies result, data, indextable, migrationMap, newPalette
    ensures Reached(job, s, y * width + x + 1, data[..], Contents(indextable))
    ensures Renumbered(ScanTo(job, s, y * width + x + 1).indices, job.palette, result[..], migrationMap[..],
            newPalette[..], ncolors')
  {
    hide ScanTo, Step, Answer, CacheAfter, CacheInRange, DiffusePlanes, Probe, Renumbered;
    var pos := y * width + x;
    ghost var d, c := data[..], Contents(indextable);
    var pixel := ReadPixel(data, mask, x, y, pos);
    var index := LookUp(job, pixel, palette, indextable, lookup, reqcolor, complexion);
    PixelStep(job, s, x, y, d, c, index);
    ncolors' := Renumber(ScanTo(job, s, pos).indices, result, palette, migrationMap, newPalette, pos, index, ncolors);
    DiffusePixel(job, data, palette, kernel, width, height, x, y, index);
  }

  /** None of the buffers of a compacting call overlap. */
  ghost predicate Distinct(result: array<byte>, data: array<byte>, palette: array<byte>, table: array?<ushort>,
                           migrationMap: array<ushort>, newPalette: array<byte>) {
    && Separate(data, palette, table) && Separate(result, palette, table) && Separate(newPalette, palette, table)
    && result != data && newPalette != data && newPalette != result
    && migrationMap as object != result && migrationMap as object != data && migrationMap as object != palette
    && migrationMap as object != newPalette && migrationMap != table
  }

  /** One row of the compacting scan. */
  method RowCompact(ghost job: Job, ghost s: State, result: array<byte>, data: array<byte>, palette: array<byte>,
                    indextable: array?<ushort>, migrationMap: array<ushort>, newPalette: array<byte>,
                    width: int, height: int, reqcolor: int, kernel: Kernel, mask: Mask,
                    lookup: LookupKind, complexion: int, y: int, ncolors: int)
    returns (ncolors': int)
    requires Describes(job, palette[..], width, height, reqcolor, kernel, mask, lookup, complexion)
    requires Fits(job, s) && s.indices == [] && data.Length == DEPTH * (width * height)
    requires lookup == LkFast ==> indextable != null
    requires result.Length == width * height && 0 <= y < height
    requires Distinct(result, data, palette, indextable, migrationMap, newPalette)
    requires Reached(job, s, y * width, data[..], Contents(indextable))
    requires Renumbered(ScanTo(job, s, y * width).indices, job.palette, result[..], migrationMap[..], newPalette[..],
             ncolors)
    modifies result, data, indextable, migrationMap, newPalette
    ensures Reached(job, s, y * width + width, data[..], Contents(indextable))
    ensures Renumbered(ScanTo(job, s, y * width + width).indices, job.palette, result[..], migrationMap[..],
            newPalette[..], ncolors')
  {
    hide ScanTo, Fits, Renumbered;
    ncolors' := ncolors;
    var x := 0;
    while x < width
      invariant 0 <= x <= width
      invariant Reached(job, s, y * width + x, data[..], Contents(indextable))
      invariant Renumbered(ScanTo(job, s, y * width + x).indices, job.palette, result[..], migrationMap[..],
                newPalette[..], ncolors')
      invariant palette[..] == job.palette
    {
      InImage(x, y, width, height);
      ncolors' := PixelCompact(job, s, result, data, palette, indextable, migrationMap, newPalette, width, height,
                               reqcolor, kernel, mask, lookup, complexion, x, y, ncolors');
      x := x + 1;
    }
  }

  lemma RenumberedStart(pal: seq<byte>, result: seq<byte>, migration: seq<ushort>, newPal: seq<byte>)
    requires |migration| == PALETTE_MAX && |newPal| == PALETTE_MAX * 4
    requires forall c :: 0 <= c < PALETTE_MAX ==> migration[c] == 0
    ensures Renumbered([], pal, result, migration, newPal, 0)
  {
  }

  /** With every pixel renumbered, the tables are the compacted result. */
  lemma RenumberedEnd(job: Job, s: State, result: seq<byte>, migration: seq<ushort>, newPal: seq<byte>,
                      kept: seq<byte>, ncolors: int)
    requires Fits(job, s) && s.indices == [] && |result| == job.size
    requires Renumbered(ScanTo(job, s, job.size).indices, job.palette, result, migration, newPal, ncolors)
    requires DEPTH * ncolors <= |kept|
    requires forall k: nat | k < ncolors :: PixelAt(kept, k) == PixelAt(newPal, k)
    ensures CompactResult(ScanTo(job, s, job.size).indices, job.palette, result, kept, ncolors)
  {
    hide ScanTo, FirstUse, Rank, PixelAt, Migrates;
  }

  /** The compacted palette is not longer than the palette it replaces. */
  lemma CompactedFits(job: Job, s: State)
    requires Fits(job, s) && s.indices == []
    ensures |FirstUse(ScanTo(job, s, job.size).indices)| <= job.reqcolor
  {
    var idx := ScanTo(job, s, job.size).indices;
    var u := FirstUse(idx);
    forall i | 0 <= i < |u|
      ensures 0 <= u[i] < job.reqcolor
    {
      assert u[i] in idx;
      var j: nat :| j < |idx| && idx[j] == u[i];
      RecordedAnswer(job, s, j);
    }
    DistinctBounded(u, job.reqcolor);
  }

  /** The loop over the rows of the compacting scan. */
  method CompactRows(ghost job: Job, ghost s: State, result: array<byte>, data: array<byte>, palette: array<byte>,
                     indextable: array?<ushort>, migrationMap: array<ushort>, newPalette: array<byte>,
                     width: int, height: int, reqcolor: int, kernel: Kernel, mask: Mask,
                     lookup: LookupKind, complexion: int)
    returns (ncolors: int)
    requires Describes(job, palette[..], width, height, reqcolor, kernel, mask, lookup, complexion)
    requires Fits(job, s) && s.indices == [] && data.Length == DEPTH * (width * height) && height >= 0
    requires lookup == LkFast ==> indextable != null
    requires result.Length == width * height
    requires Distinct(result, data, palette, indextable, migrationMap, newPalette)
    requires Reached(job, s, 0, data[..], Contents(indextable))
    requires Renumbered(ScanTo(job, s, 0).indices, job.palette, result[..], migrationMap[..], newPalette[..], 0)
    modifies result, data, indextable, migrationMap, newPalette
    ensures Reached(job, s, height * width, data[..], Contents(indextable))
    ensures Renumbered(ScanTo(job, s, height * width).indices, job.palette, result[..], migrationMap[..],
                       newPalette[..], ncolors)
  {
    hide ScanTo, Renumbered;
    ncolors := 0;
    var y := 0;
    assert y * width == 0;
    while y < height
      invariant 0 <= y <= height
      invariant Reached(job, s, y * width, data[..], Contents(indextable))
      invariant Renumbered(ScanTo(job, s, y * width).indices, job.palette, result[..], migrationMap[..],
                           newPalette[..], ncolors)
      invariant palette[..] == old(palette[..])
    {
      ncolors := RowCompact(job, s, result, data, palette, indextable, migrationMap, newPalette, width, height,
                            reqcolor, kernel, mask, lookup, complexion, y, ncolors);
      assert y * width + width == (y + 1) * width;
      y := y + 1;
    }
  }

  /** The branch of the scan that renumbers the indices and compacts the palette. */
  method ScanCompact(ghost job: Job, ghost s: State, result: array<byte>, data: array<byte>, palette: array<byte>,
                     indextable: array?<ushort>, width: int, height: int, reqcolor: int, kernel: Kernel, mask: Mask,
                     lookup: LookupKind, complexion: int)
    returns (ncolors: int)
    requires Describes(job, palette[..], width, height, reqcolor, kernel, mask, lookup, complexion)
    requires Fits(job, s) && s.indices == [] && data[..] == s.data && Contents(indextable) == s.cache
    requires lookup == LkFast ==> indextable != null
    requires result.Length == width * height && Separate(data, palette, indextable)
             && Separate(result, palette, indextable)
    requires result != data
    modifies result, data, palette, indextable
    ensures Reached(job, s, job.size, data[..], Contents(indextable))
    ensures CompactResult(ScanTo(job, s, job.size).indices, job.palette, result[..], palette[..], ncolors)
    ensures palette[DEPTH * ncolors..] == job.palette[DEPTH * ncolors..]
  {
    hide ScanTo, FirstUse, Rank, Migrates, Ranks, Keeps;
    var newPalette := new byte[PALETTE_MAX * 4](_ => 0);
    var migrationMap := new ushort[PALETTE_MAX](_ => 0);
    AtStart(job, s, data[..], Contents(indextable), result[..]);
    ScanStart(job, s);
    RenumberedStart(job.palette, result[..], migrationMap[..], newPalette[..]);
    ncolors := CompactRows(job, s, result, data, palette, indextable, migrationMap, newPalette, width, height,
                           reqcolor, kernel, mask, lookup, complexion);
    assert height * width == job.size;
    CompactedFits(job, s);
    CopyPalette(palette, newPalette, ncolors);
    RenumberedEnd(job, s, result[..], migrationMap[..], newPalette[..], palette[..], ncolors);
  }

  /** The final `memcpy` of the compacted colours over the palette. */
  method CopyPalette(palette: array<byte>, newPalette: array<byte>, ncolors: int)
    requires 0 <= ncolors && DEPTH * ncolors <= palette.Length && DEPTH * ncolors <= newPalette.Length
    requires palette != newPalette
    modifies palette
    ensures forall k: nat | k < ncolors :: PixelAt(palette[..], k) == PixelAt(newPalette[..], k)
    ensures palette[DEPTH * ncolors..] == old(palette[DEPTH * ncolors..])
  {
    forall i | 0 <= i < DEPTH * ncolors {
      palette[i] := newPalette[i];
    }
  }

  // ---- the whole call ----------------------------------------------------------------------

  datatype Status = SixelOk | SixelBadArgument

  /** The optional caller-owned arguments that pick a lookup, a kernel and a mask. */
  datatype Options = Options(diffuse: DiffuseMethod, optimize: bool, optimizePalette: bool, complexion: int,
                             maskA: (int, int, nat, byte) -> int, maskX: (int, int, nat, byte) -> int)

  function ComponentSum(c: Color): nat { c.c0 + c.c1 + c.c2 }

  /** Black-and-white palettes get the threshold lookups; otherwise `optimize` picks the cached one. */
  function SelectLookup(pal: seq<byte>, reqcolor: int, optimize: bool): LookupKind
    requires reqcolor >= 0 && DEPTH * reqcolor <= |pal|
  {
    if reqcolor == 2 && ComponentSum(PixelAt(pal, 0)) == 0 && ComponentSum(PixelAt(pal, 1)) == 255 * 3 then LkMonoDark
    else if reqcolor == 2 && ComponentSum(PixelAt(pal, 0)) == 255 * 3 && ComponentSum(PixelAt(pal, 1)) == 0
    then LkMonoLight
    else if optimize then LkFast else LkNormal
  }

  function SelectMask(o: Options): Mask {
    match o.diffuse
    case DiffuseADither => Masked(o.maskA)
    case DiffuseXDither => Masked(o.maskX)
    case _ => NoMask
  }

  /** The calls that are refused: no colours, or a complexion that could overflow a distance. */
  predicate Refused(pal: seq<byte>, reqcolor: int, o: Options)
    requires reqcolor >= 0 ==> DEPTH * reqcolor <= |pal|
  {
    reqcolor < 1 ||
    (var lookup := SelectLookup(pal, reqcolor, o.optimize);
     (lookup == LkNormal || lookup == LkFast) && o.complexion > MAX_COMPLEXION)
  }

  /** The scan that an accepted call performs. */
  function JobFor(pal: seq<byte>, width: int, height: int, reqcolor: int, o: Options): Job
    requires 0 <= reqcolor && DEPTH * reqcolor <= |pal|
  {
    Job(width, height, width * height, DEPTH, pal, reqcolor, SelectKernel(o.diffuse, width), SelectMask(o),
        SelectLookup(pal, reqcolor, o.optimize), o.complexion)
  }

  /** The cache an accepted call starts from: the caller's table, or a fresh zeroed one. */
  ghost function StartCache(table: seq<ushort>, hasTable: bool, lookup: LookupKind): seq<ushort> {
    if hasTable then table else if lookup == LkFast then seq(BUCKETS, _ => 0) else []
  }

  /** The choice of `f_lookup`. */
  method ChooseLookup(palette: array<byte>, reqcolor: int, optimize: bool) returns (lookup: LookupKind)
    requires 1 <= reqcolor && DEPTH * reqcolor <= palette.Length
    ensures lookup == SelectLookup(palette[..], reqcolor, optimize)
  {
    if reqcolor == 2 {
      var sum1, sum2 := 0, 0;
      var n := 0;
      while n < DEPTH
        invariant 0 <= n <= DEPTH
        invariant sum1 == (if n > 0 then palette[0] as int else 0) + (if n > 1 then palette[1] as int else 0)
                          + (if n > 2 then palette[2] as int else 0)
      {
        sum1 := sum1 + palette[n] as int;
        n := n + 1;
      }
      n := DEPTH;
      while n < DEPTH + DEPTH
        invariant DEPTH <= n <= DEPTH + DEPTH
        invariant sum2 == (if n > 3 then palette[3] as int else 0) + (if n > 4 then palette[4] as int else 0)
                          + (if n > 5 then palette[5] as int else 0)
      {
        sum2 := sum2 + palette[n] as int;
        n := n + 1;
      }
      if sum1 == 0 && sum2 == 255 * 3 {
        return LkMonoDark;
      } else if sum1 == 255 * 3 && sum2 == 0 {
        return LkMonoLight;
      }
    }
    lookup := if optimize then LkFast else LkNormal;
  }

  /** Entry 0 is `a` and entry 1 is `b`, and there are no others. */
  predicate PairOf(pal: seq<byte>, reqcolor: int, a: Color, b: Color)
    requires reqcolor >= 1 && DEPTH * reqcolor <= |pal|
  {
    reqcolor == 2 && PixelAt(pal, 0) == a && PixelAt(pal, 1) == b
  }

  const BLACK := Color(0, 0, 0)
  const WHITE := Color(255, 255, 255)

  /**
    Which palettes get a threshold lookup: two entries, one black and one white.
    For any other palette the cached lookup is used exactly if asked for.
   */
  lemma SelectLookupIff(pal: seq<byte>, reqcolor: int, optimize: bool)
    requires reqcolor >= 1 && DEPTH * reqcolor <= |pal|
    ensures var lookup := SelectLookup(pal, reqcolor, optimize);
            && (lookup == LkMonoDark <==> PairOf(pal, reqcolor, BLACK, WHITE))
            && (lookup == LkMonoLight <==> PairOf(pal, reqcolor, WHITE, BLACK))
            && (lookup == LkFast ==> optimize) && (lookup == LkNormal ==> !optimize)
  {
    hide PixelAt, ComponentSum;
    if reqcolor == 2 {
      ExtremeSums(PixelAt(pal, 0));
      ExtremeSums(PixelAt(pal, 1));
    }
  }

  lemma ExtremeSums(c: Color)
    ensures ComponentSum(c) == 0 <==> c == BLACK
    ensures ComponentSum(c) == 765 <==> c == WHITE
  {
  }

  /** In either order of black and white, a pixel is drawn white exactly if its components add up to 256 or more. */
  lemma ThresholdColor(job: Job, p: Color, cache: seq<ushort>, optimize: bool)
    requires job.Valid() && CacheInRange(job, cache) && job.lookup == SelectLookup(job.palette, job.reqcolor, optimize)
    requires PairOf(job.palette, job.reqcolor, BLACK, WHITE) || PairOf(job.palette, job.reqcolor, WHITE, BLACK)
    ensures PixelAt(job.palette, Answer(job, p, cache))
            == if p.c0 as int + p.c1 as int + p.c2 as int >= 256 then WHITE else BLACK
  {
    hide PixelAt, Answer, SelectLookup;
    SelectLookupIff(job.palette, job.reqcolor, optimize);
    ThresholdIndex(job, p, cache);
  }

  lemma ThresholdIndex(job: Job, p: Color, cache: seq<ushort>)
    requires job.Valid() && CacheInRange(job, cache) && (job.lookup == LkMonoDark || job.lookup == LkMonoLight)
    ensures var bright := p.c0 as int + p.c1 as int + p.c2 as int >= 256;
            Answer(job, p, cache) == if bright == (job.lookup == LkMonoDark) then 1 else 0
  {
  }

  /** The positional dithers look up their own mask's value, clamped; every other method looks the pixel itself up. */
  lemma MaskedProbe(pal: seq<byte>, width: int, height: int, reqcolor: int, o: Options, p: Color, x: int, y: int,
                    n: nat)
    requires 1 <= reqcolor && DEPTH * reqcolor <= |pal| && n < DEPTH
    ensures var v := if o.diffuse == DiffuseADither then o.maskA(x, y, n, Plane(p, n))
                     else if o.diffuse == DiffuseXDither then o.maskX(x, y, n, Plane(p, n)) else Plane(p, n);
            Plane(Probe(JobFor(pal, width, height, reqcolor, o), p, x, y), n) as int
            == if v < 0 then 0 else if v > 255 then 255 else v
  {
  }

  /** Every entry of a table is 0 or one more than an index into a palette of `n` colours. */
  ghost predicate InPalette(table: seq<ushort>, n: int) {
    |table| == BUCKETS && forall h: nat | h < BUCKETS :: table[h] <= n
  }

  /** `sixel_quant_apply_palette` for three-byte pixels. */
  method QuantApplyPalette(result: array<byte>, data: array<byte>, width: int, height: int, palette: array<byte>,
                           reqcolor: int, o: Options, cachetable: array?<ushort>)
    returns (status: Status, ncolors: int)
    requires width >= 0 && height >= 0 && data.Length == DEPTH * (width * height) && result.Length == width * height
    requires reqcolor <= PALETTE_MAX && DEPTH * reqcolor <= palette.Length
    requires o.complexion >= MIN_COMPLEXION
    requires Separate(data, palette, cachetable) && Separate(result, palette, cachetable) && result != data
    requires cachetable != null ==>
               && cachetable.Length == BUCKETS
               && forall h :: 0 <= h < BUCKETS ==> cachetable[h] <= reqcolor
    modifies result, data, palette, cachetable
    ensures status == SixelBadArgument <==> Refused(old(palette[..]), reqcolor, o)
    ensures status == SixelBadArgument ==>
              && data[..] == old(data[..]) && palette[..] == old(palette[..]) && result[..] == old(result[..])
              && Contents(cachetable) == old(Contents(cachetable))
    ensures status == SixelOk ==>
              var job := JobFor(old(palette[..]), width, height, reqcolor, o);
              var s := State(old(data[..]), StartCache(old(Contents(cachetable)), cachetable != null, job.lookup), []);
              && Fits(job, s)
              && data[..] == ScanTo(job, s, job.size).data
              && (cachetable != null ==>
                    && cachetable[..] == ScanTo(job, s, job.size).cache
                    && InPalette(cachetable[..], reqcolor))
              && (if o.optimizePalette
                  then CompactResult(ScanTo(job, s, job.size).indices, job.palette, result[..], palette[..], ncolors)
                  else PlainResult(ScanTo(job, s, job.size).indices, result[..])
                       && palette[..] == job.palette && ncolors == reqcolor)
  {
    hide ScanTo, Step, Answer, PlainResult, CompactResult, ComponentSum, InPalette;
    ncolors := 0;
    if reqcolor < 1 {
      return SixelBadArgument, ncolors;
    }
    var kernel := SelectKernel(o.diffuse, width);
    var mask := SelectMask(o);
    var lookup := ChooseLookup(palette, reqcolor, o.optimize);
    if (lookup == LkFast || lookup == LkNormal) && o.complexion > 1 {
      var maxComplexion := (INT_MAX - MAX_CHANNEL_DIFF_SQ * (DEPTH - 1)) / MAX_CHANNEL_DIFF_SQ;
      if o.complexion > maxComplexion {
        return SixelBadArgument, ncolors;
      }
    }
    var indextable := cachetable;
    if cachetable == null && lookup == LkFast {
      indextable := new ushort[BUCKETS](_ => 0);
    }
    ghost var job := JobFor(palette[..], width, height, reqcolor, o);
    ghost var s := State(data[..], StartCache(Contents(cachetable), cachetable != null, lookup), []);
    assert Contents(indextable) == s.cache;
    if cachetable != null {
      TableStarts(s.cache, reqcolor);
    }
    if o.optimizePalette {
      ncolors := ScanCompact(job, s, result, data, palette, indextable, width, height, reqcolor, kernel, mask, lookup,
                             o.complexion);
    } else {
      ScanPlain(job, s, result, data, palette, indextable, width, height, reqcolor, kernel, mask, lookup, o.complexion);
      ncolors := reqcolor;
    }
    if cachetable != null {
      TableInPalette(job, s);
    }
    status := SixelOk;
  }

  lemma TableStarts(table: seq<ushort>, n: int)
    requires |table| == BUCKETS && forall h :: 0 <= h < BUCKETS ==> table[h] <= n
    ensures InPalette(table, n)
  {
  }

  lemma TableInPalette(job: Job, s: State)
    requires Fits(job, s) && s.indices == [] && InPalette(s.cache, job.reqcolor)
    ensures InPalette(ScanTo(job, s, job.size).cache, job.reqcolor)
  {
    hide ScanTo;
    EntriesInRange(job, s);
  }

  /**
    Two accepted calls from the same pixels, palette and cache that differ only
    in `optimizePalette` perform the same scan (`JobFor` does not look at that
    option), and for every kernel, mask and lookup they draw the same picture.
    The compacted palette never needs more room than the one it replaces.
   */
  lemma OptimizingDrawsTheSamePicture(job: Job, s: State, plain: seq<byte>, result: seq<byte>, kept: seq<byte>,
                                      ncolors: int)
    requires Fits(job, s) && s.indices == []
    requires PlainResult(ScanTo(job, s, job.size).indices, plain)
    requires CompactResult(ScanTo(job, s, job.size).indices, job.palette, result, kept, ncolors)
    ensures |plain| == |result| == job.size && 0 <= ncolors <= job.reqcolor && DEPTH * ncolors <= |kept|
    ensures forall pos: nat | pos < job.size ::
              0 <= result[pos] < ncolors && PixelAt(kept, result[pos]) == PixelAt(job.palette, plain[pos])
    ensures NumberedByFirstUse(result)
    ensures forall r: nat | r < ncolors :: SeenBefore(result, |result|, r)
  {
    hide Step, Answer, CacheAfter, CacheInRange, FirstUse, Rank, DiffusePlanes;
    var idx := ScanTo(job, s, job.size).indices;
    forall i | 0 <= i < |idx|
      ensures 0 <= idx[i] && DEPTH * idx[i] + 2 < |job.palette|
    {
      RecordedAnswer(job, s, i);
    }
    CompactionPreservesPicture(idx, job.palette, plain, result, kept, ncolors);
    CompactedFits(job, s);
  }
}
