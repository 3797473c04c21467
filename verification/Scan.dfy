/**
  The raster scan of `sixel_quant_apply_palette` as a state machine: one step per
  pixel looks the pixel up, records the index, and diffuses the error.
 */
module Scan {
  import opened CArithmetic
  import opened Colors
  import opened Diffusion
  import opened Lookup

  datatype LookupKind = LkNormal | LkFast | LkMonoDark | LkMonoLight

  /**
    A positional dither: `val(x, y, c, v)` is the unclamped value that replaces
    component `c` with value `v` before the lookup.  The two masks of the source
    are instances; nothing here depends on which.
   */
  datatype Mask = NoMask | Masked(val: (int, int, nat, byte) -> int)

  /** Everything that stays fixed during one scan. */
  datatype Job = Job(width: int, height: int, size: int, depth: nat, palette: seq<byte>, reqcolor: nat,
                     kernel: Kernel, mask: Mask, lookup: LookupKind, complexion: int)
  {
    ghost predicate Valid() {
      && width >= 0 && height >= 0 && size == width * height && depth == DEPTH
      && 1 <= reqcolor <= 256 && DEPTH * reqcolor <= |palette|
      && (Wide(kernel) ==> width >= 2)
      && (mask.Masked? ==> kernel == KNone)
      && (lookup == LkMonoDark || lookup == LkMonoLight ==> reqcolor == 2)
    }
  }

  datatype State = State(data: seq<byte>, cache: seq<ushort>, indices: seq<int>)

  /** Cache entries are 0 or one more than a palette index. */
  ghost predicate CacheInRange(job: Job, cache: seq<ushort>) {
    job.lookup == LkFast ==> |cache| == BUCKETS && forall h: nat | h < BUCKETS :: cache[h] <= job.reqcolor
  }

  ghost predicate Fits(job: Job, s: State) {
    && job.Valid()
    && |s.data| == DEPTH * job.size
    && |s.indices| <= job.size
    && CacheInRange(job, s.cache)
  }

  /** The pixel that is looked up: the stored one, or its masked copy. */
  function Probe(job: Job, p: Color, x: int, y: int): Color {
    match job.mask
    case NoMask => p
    case Masked(val) =>
      Color(ClampByte(val(x, y, 0, p.c0)), ClampByte(val(x, y, 1, p.c1)), ClampByte(val(x, y, 2, p.c2)))
  }

  function Answer(job: Job, p: Color, cache: seq<ushort>): (i: int)
    requires job.Valid() && CacheInRange(job, cache)
    ensures 0 <= i < job.reqcolor
  {
    match job.lookup
    case LkNormal => Nearest(p, job.palette, job.reqcolor, job.complexion)
    case LkFast => FastIndex(p, job.palette, job.reqcolor, cache, job.complexion)
    case LkMonoDark => if p.c0 + p.c1 + p.c2 >= 128 * job.reqcolor then 1 else 0
    case LkMonoLight => if p.c0 + p.c1 + p.c2 < 128 * job.reqcolor then 1 else 0
  }

  function CacheAfter(job: Job, p: Color, cache: seq<ushort>): (c: seq<ushort>)
    requires job.Valid() && CacheInRange(job, cache)
    ensures CacheInRange(job, c)
  {
    if job.lookup == LkFast then FastCache(p, job.palette, job.reqcolor, cache, job.complexion) else cache
  }

  /** The error of plane `n` at (x, y), measured when that plane is diffused. */
  function Offset(job: Job, data: seq<byte>, pos: nat, n: nat, index: nat): int
    requires n < DEPTH && DEPTH * pos + 2 < |data| && DEPTH * index + 2 < |job.palette|
  {
    Plane(PixelAt(data, pos), n) - Plane(PixelAt(job.palette, index), n)
  }

  /** The buffer after the first `n` planes of the pixel at (x, y) were diffused. */
  function DiffusePlanes(job: Job, data: seq<byte>, x: int, y: int, index: nat, n: nat): (r: seq<byte>)
    requires n <= DEPTH && 0 <= y * job.width + x && DEPTH * (y * job.width + x) + 2 < |data|
    requires DEPTH * index + 2 < |job.palette|
    ensures |r| == |data|
  {
    if n == 0 then data else
    var d := DiffusePlanes(job, data, x, y, index, n - 1);
    Diffuse(job.kernel, d, job.width, job.height, x, y, n - 1, Offset(job, d, y * job.width + x, n - 1, index))
  }

  lemma FactorOrder(a: int, b: int, w: int)
    requires w > 0 && a < b
    ensures a * w + w <= b * w
  {
    var k := b - a - 1;
    assert k * w >= 0;
    assert b * w == (a + 1 + k) * w == a * w + w + k * w;
  }

  /** The column of the `pos`-th pixel that the nested loops visit. */
  function Col(width: int, pos: nat): (x: int)
    requires width > 0
    ensures 0 <= x < width
  {
    if pos == 0 then 0 else if Col(width, pos - 1) + 1 == width then 0 else Col(width, pos - 1) + 1
  }

  /** Its row. */
  function Row(width: int, pos: nat): (y: nat)
    requires width > 0
    ensures y * width + Col(width, pos) == pos
  {
    if pos == 0 then 0 else
    assert (Row(width, pos - 1) + 1) * width == Row(width, pos - 1) * width + width;
    if Col(width, pos - 1) + 1 == width then Row(width, pos - 1) + 1 else Row(width, pos - 1)
  }

  /** The loop variables x and y are the coordinates of `y * width + x`. */
  lemma RasterUnique(x: int, y: int, width: int)
    requires 0 <= x < width && 0 <= y && 0 <= y * width + x
    ensures Row(width, y * width + x) == y && Col(width, y * width + x) == x
  {
    var q := Row(width, y * width + x);
    if q < y {
      FactorOrder(q, y, width);
    } else if q > y {
      FactorOrder(y, q, width);
    }
  }

  /** Visited rows are rows of the image. */
  lemma Raster(pos: int, width: int, height: int)
    requires 0 <= pos < width * height && width >= 0
    ensures width > 0 && Row(width, pos) < height
  {
    assert width > 0;
    var q := Row(width, pos);
    if height < q {
      FactorOrder(height, q, width);
    }
  }

  /** One pixel. */
  function Step(job: Job, s: State): (t: State)
    requires Fits(job, s) && |s.indices| < job.size
    ensures Fits(job, t) && |t.indices| == |s.indices| + 1
  {
    var pos := |s.indices|;
    Raster(pos, job.width, job.height);
    var x, y := Col(job.width, pos), Row(job.width, pos);
    var p := Probe(job, PixelAt(s.data, pos), x, y);
    var index := Answer(job, p, s.cache);
    State(DiffusePlanes(job, s.data, x, y, index, job.depth), CacheAfter(job, p, s.cache), s.indices + [index])
  }

  /** The state after the first `n` pixels. */
  function ScanTo(job: Job, s: State, n: nat): (t: State)
    requires Fits(job, s) && s.indices == [] && n <= job.size
    ensures Fits(job, t) && |t.indices| == n
  {
    if n == 0 then s else Step(job, ScanTo(job, s, n - 1))
  }
}
