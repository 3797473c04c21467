/** Error diffusion: the kernels, where they write, and how much error they pass on. */
module Diffusion {
  import opened CArithmetic
  import opened Colors

  /** `method_for_diffuse`; values outside the enumeration behave like `DiffuseNone`. */
  datatype DiffuseMethod =
    | DiffuseAuto | DiffuseNone | DiffuseAtkinson | DiffuseFS | DiffuseJaJuNi
    | DiffuseStucki | DiffuseBurkes | DiffuseADither | DiffuseXDither | DiffuseOther

  datatype Kernel = KNone | KAtkinson | KFS | KJaJuNi | KStucki | KBurkes

  /** The kernels that reach two columns to the left. */
  predicate Wide(k: Kernel) { k == KJaJuNi || k == KStucki || k == KBurkes }

  /** The kernel `sixel_quant_apply_palette` selects, with its fallback for narrow images. */
  function SelectKernel(m: DiffuseMethod, width: int): Kernel {
    match m
    case DiffuseAtkinson => KAtkinson
    case DiffuseFS => KFS
    case DiffuseJaJuNi => if width >= 2 then KJaJuNi else KNone
    case DiffuseStucki => if width >= 2 then KStucki else KNone
    case DiffuseBurkes => if width >= 2 then KBurkes else KNone
    case _ => KNone
  }

  /** One destination of a kernel: `dy` rows down, `dx` to the right, with the share `num / den`. */
  datatype Tap = Tap(dy: nat, dx: int, num: nat, den: positive)

  function TapCount(k: Kernel): nat {
    match k
    case KNone => 0
    case KFS => 4
    case KAtkinson => 6
    case KJaJuNi => 12
    case KStucki => 12
    case KBurkes => 7
  }

  /** The `i`-th destination of a kernel, in the order of the calls to `error_diffuse`. */
  function TapAt(k: Kernel, i: nat): (t: Tap)
    requires i < TapCount(k)
    ensures t.dy <= 2 && -2 <= t.dx <= 2 && (t.dy == 0 ==> t.dx > 0)
  {
    match k
    case KFS =>
      if i == 0 then Tap(0, 1, 7, 16) else if i == 1 then Tap(1, -1, 3, 16) else
      if i == 2 then Tap(1, 0, 5, 16) else Tap(1, 1, 1, 16)
    case KAtkinson =>
      if i == 0 then Tap(0, 1, 1, 8) else if i == 1 then Tap(0, 2, 1, 8) else
      if i == 2 then Tap(1, -1, 1, 8) else if i == 3 then Tap(1, 0, 1, 8) else
      if i == 4 then Tap(1, 1, 1, 8) else Tap(2, 0, 1, 8)
    case KJaJuNi =>
      if i == 0 then Tap(0, 1, 7, 48) else if i == 1 then Tap(0, 2, 5, 48) else
      if i == 2 then Tap(1, -2, 3, 48) else if i == 3 then Tap(1, -1, 5, 48) else
      if i == 4 then Tap(1, 0, 7, 48) else if i == 5 then Tap(1, 1, 5, 48) else
      if i == 6 then Tap(1, 2, 3, 48) else if i == 7 then Tap(2, -2, 1, 48) else
      if i == 8 then Tap(2, -1, 3, 48) else if i == 9 then Tap(2, 0, 5, 48) else
      if i == 10 then Tap(2, 1, 3, 48) else Tap(2, 2, 1, 48)
    case KStucki =>
      if i == 0 then Tap(0, 1, 1, 6) else if i == 1 then Tap(0, 2, 1, 12) else
      if i == 2 then Tap(1, -2, 1, 24) else if i == 3 then Tap(1, -1, 1, 12) else
      if i == 4 then Tap(1, 0, 1, 6) else if i == 5 then Tap(1, 1, 1, 12) else
      if i == 6 then Tap(1, 2, 1, 24) else if i == 7 then Tap(2, -2, 1, 48) else
      if i == 8 then Tap(2, -1, 1, 24) else if i == 9 then Tap(2, 0, 1, 12) else
      if i == 10 then Tap(2, 1, 1, 24) else Tap(2, 2, 1, 48)
    case KBurkes =>
      if i == 0 then Tap(0, 1, 1, 4) else if i == 1 then Tap(0, 2, 1, 8) else
      if i == 2 then Tap(1, -2, 1, 16) else if i == 3 then Tap(1, -1, 1, 8) else
      if i == 4 then Tap(1, 0, 1, 4) else if i == 5 then Tap(1, 1, 1, 8) else Tap(1, 2, 1, 16)
  }

  /** The condition under which a kernel writes anything at (x, y). */
  predicate Fires(k: Kernel, width: int, height: int, x: int, y: int) {
    match k
    case KNone => false
    case KFS => x < width - 1 && y < height - 1
    case KAtkinson => y < height - 2
    case KJaJuNi => y * width + x < (height - 2) * width - 2
    case KStucki => y * width + x < (height - 2) * width - 2
    case KBurkes => y * width + x < (height - 1) * width - 2
  }

  function Target(t: Tap, pos: int, width: int): int {
    pos + width * t.dy + t.dx
  }

  /** What one tap adds to its destination. */
  function Share(t: Tap, error: int): int {
    TruncDiv(error * t.num, t.den)
  }

  // ---- memory safety and causality ----------------------------------------------

  /** The furthest destination of a kernel, relative to the current pixel. */
  function Reach(k: Kernel, width: int): int {
    match k
    case KNone => 0
    case KFS => width + 1
    case KAtkinson => 2 * width
    case KBurkes => width + 2
    case _ => 2 * width + 2
  }

  lemma RowsBelow(width: int, height: int, y: int, rows: nat)
    requires 0 <= width && y + rows < height
    ensures y * width + width + rows * width <= width * height
  {
    var rest := height - 1 - y - rows;
    assert width * height == y * width + width + rows * width + rest * width;
    assert rest * width >= 0;
  }

  lemma ReachInBounds(k: Kernel, width: int, height: int, x: int, y: int)
    requires 0 <= x < width && 0 <= y < height && Fires(k, width, height, x, y)
    ensures 0 <= y * width + x && y * width + x + Reach(k, width) < width * height
    ensures k == KFS ==> width >= 2
  {
    assert 0 <= y * width;
    if k == KFS {
      RowsBelow(width, height, y, 1);
    } else if k == KAtkinson {
      RowsBelow(width, height, y, 2);
    } else if k == KBurkes {
      assert (height - 1) * width == width * height - width;
    } else {
      assert (height - 2) * width == width * height - 2 * width;
    }
  }

  /** Memory safety: the taps of a firing kernel stay inside the image. */
  lemma TapsInBounds(k: Kernel, width: int, height: int, x: int, y: int, i: nat)
    requires 0 <= x < width && 0 <= y < height
    requires Fires(k, width, height, x, y)
    requires Wide(k) ==> width >= 2
    requires i < TapCount(k)
    ensures 0 <= Target(TapAt(k, i), y * width + x, width) < width * height
  {
    ReachInBounds(k, width, height, x, y);
    var t := TapAt(k, i);
    assert width * t.dy == if t.dy == 0 then 0 else if t.dy == 1 then width else 2 * width;
  }

  /** The least width from which a kernel never writes to the pixel it was called for. */
  function CausalWidth(k: Kernel): nat {
    match k
    case KNone => 1
    case KFS => 1
    case KAtkinson => 2
    case _ => 3
  }

  /** Every write of a firing kernel lands strictly after the current pixel in raster order. */
  ghost predicate Causal(k: Kernel, width: int) {
    forall height, x, y, i: nat
      | 0 <= x < width && 0 <= y < height && i < TapCount(k) && Fires(k, width, height, x, y)
      :: Target(TapAt(k, i), y * width + x, width) > y * width + x
  }

  /** Raster causality holds from `CausalWidth` on, and at no smaller width. */
  lemma CausalIff(k: Kernel, width: int)
    requires width >= 1
    requires Wide(k) ==> width >= 2
    ensures Causal(k, width) <==> width >= CausalWidth(k)
  {
    if width >= CausalWidth(k) {
      forall height, x, y, i: nat
        | 0 <= x < width && 0 <= y < height && i < TapCount(k) && Fires(k, width, height, x, y)
        ensures Target(TapAt(k, i), y * width + x, width) > y * width + x
      {
        TapAdvances(k, width, i, x);
      }
    } else {
      var i := SelfTap(k);
      assert Fires(k, width, 5, 0, 0);
      assert Target(TapAt(k, i), 0 * width + 0, width) == 0;
    }
  }

  lemma TapAdvances(k: Kernel, width: int, i: nat, x: int)
    requires width >= CausalWidth(k) && i < TapCount(k)
    requires k == KFS ==> 0 <= x < width - 1
    ensures width * TapAt(k, i).dy + TapAt(k, i).dx > 0
  {
    var t := TapAt(k, i);
    assert width * t.dy == if t.dy == 0 then 0 else if t.dy == 1 then width else 2 * width;
  }

  /** The tap that reaches furthest left in the next row. */
  function SelfTap(k: Kernel): (i: nat)
    requires k == KAtkinson || Wide(k)
    ensures i < TapCount(k)
  {
    2
  }

  // ---- the writes -----------------------------------------------------------------

  /** `error_diffuse` on plane `n`: a saturating addition; nothing happens outside the buffer. */
  function Deposit(data: seq<byte>, cell: int, n: nat, amount: int): (r: seq<byte>)
    ensures |r| == |data|
  {
    var at := cell * DEPTH + n;
    if 0 <= at < |data| then data[at := ClampByte(data[at] + amount)] else data
  }

  /** The first `i` taps of kernel `k` applied in order. */
  function Apply(data: seq<byte>, n: nat, pos: int, width: int, k: Kernel, i: nat, error: int): (r: seq<byte>)
    requires i <= TapCount(k)
    ensures |r| == |data|
  {
    if i == 0 then data else
    var t := TapAt(k, i - 1);
    Deposit(Apply(data, n, pos, width, k, i - 1, error), Target(t, pos, width), n, Share(t, error))
  }

  function Diffuse(k: Kernel, data: seq<byte>, width: int, height: int, x: int, y: int, n: nat,
                   error: int): (r: seq<byte>)
    ensures |r| == |data|
  {
    if Fires(k, width, height, x, y)
    then Apply(data, n, y * width + x, width, k, TapCount(k), error)
    else data
  }

  /** `error_diffuse`, on plane `n` of pixel `pos`. */
  method ErrorDiffuse(data: array<byte>, n: nat, pos: int, error: int, numerator: nat, denominator: nat)
    requires n < DEPTH && 0 <= pos && DEPTH * pos + n < data.Length && denominator > 0
    modifies data
    ensures data[..] == Deposit(old(data[..]), pos, n, TruncDiv(error * numerator, denominator))
  {
    var c := data[pos * DEPTH + n] + TruncDiv(error * numerator, denominator);
    if c < 0 {
      c := 0;
    }
    if c >= 256 {
      c := 255;
    }
    data[pos * DEPTH + n] := c;
  }

  /** The `i`-th call of `error_diffuse` in kernel `k`, seen as one more tap applied to `base`. */
  method PassOn(data: array<byte>, n: nat, cell: int, error: int, numerator: nat, denominator: nat,
                ghost base: seq<byte>, ghost pos: int, ghost width: int, ghost k: Kernel, ghost i: nat)
    requires n < DEPTH && 0 <= cell && DEPTH * cell + n < data.Length && denominator > 0
    requires i < TapCount(k) && cell == Target(TapAt(k, i), pos, width)
    requires TapAt(k, i).num == numerator && TapAt(k, i).den == denominator
    requires data[..] == Apply(base, n, pos, width, k, i, error)
    modifies data
    ensures data[..] == Apply(base, n, pos, width, k, i + 1, error)
  {
    ErrorDiffuse(data, n, cell, error, numerator, denominator);
  }

  /** `diffuse_fs` on plane `n`. */
  method DiffuseFS(data: array<byte>, n: nat, width: int, height: int, x: int, y: int, error: int)
    requires n < DEPTH && 0 <= x < width && 0 <= y < height && data.Length == DEPTH * (width * height)
    modifies data
    ensures data[..] == Diffuse(KFS, old(data[..]), width, height, x, y, n, error)
  {
    var pos := y * width + x;
    if x < width - 1 && y < height - 1 {
      ghost var d, k: Kernel := data[..], KFS;
      assert Diffuse(k, d, width, height, x, y, n, error) == Apply(d, n, pos, width, k, TapCount(k), error);
      ReachInBounds(KFS, width, height, x, y);
      PassOn(data, n, pos + width * 0 + 1, error, 7, 16, d, pos, width, k, 0);
      PassOn(data, n, pos + width * 1 - 1, error, 3, 16, d, pos, width, k, 1);
      PassOn(data, n, pos + width * 1 + 0, error, 5, 16, d, pos, width, k, 2);
      PassOn(data, n, pos + width * 1 + 1, error, 1, 16, d, pos, width, k, 3);
    }
  }

  /** `diffuse_atkinson` on plane `n`. */
  method DiffuseAtkinson(data: array<byte>, n: nat, width: int, height: int, x: int, y: int, error: int)
    requires n < DEPTH && 0 <= x < width && 0 <= y < height && data.Length == DEPTH * (width * height)
    modifies data
    ensures data[..] == Diffuse(KAtkinson, old(data[..]), width, height, x, y, n, error)
  {
    var pos := y * width + x;
    if y < height - 2 {
      ghost var d, k: Kernel := data[..], KAtkinson;
      assert Diffuse(k, d, width, height, x, y, n, error) == Apply(d, n, pos, width, k, TapCount(k), error);
      ReachInBounds(KAtkinson, width, height, x, y);
      PassOn(data, n, pos + width * 0 + 1, error, 1, 8, d, pos, width, k, 0);
      PassOn(data, n, pos + width * 0 + 2, error, 1, 8, d, pos, width, k, 1);
      PassOn(data, n, pos + width * 1 - 1, error, 1, 8, d, pos, width, k, 2);
      PassOn(data, n, pos + width * 1 + 0, error, 1, 8, d, pos, width, k, 3);
      PassOn(data, n, pos + width * 1 + 1, error, 1, 8, d, pos, width, k, 4);
      PassOn(data, n, pos + width * 2 + 0, error, 1, 8, d, pos, width, k, 5);
    }
  }

  /** The last row of `diffuse_jajuni`. */
  method JaJuNiLastRow(data: array<byte>, n: nat, width: int, pos: int, error: int, ghost base: seq<byte>,
                       ghost k: Kernel)
    requires n < DEPTH && 0 <= pos && width >= 2 && DEPTH * (pos + 2 * width + 2) + n < data.Length
    requires k == KJaJuNi && data[..] == Apply(base, n, pos, width, k, 7, error)
    modifies data
    ensures data[..] == Apply(base, n, pos, width, k, 12, error)
  {
    PassOn(data, n, pos + width * 2 - 2, error, 1, 48, base, pos, width, k, 7);
    PassOn(data, n, pos + width * 2 - 1, error, 3, 48, base, pos, width, k, 8);
    PassOn(data, n, pos + width * 2 + 0, error, 5, 48, base, pos, width, k, 9);
    PassOn(data, n, pos + width * 2 + 1, error, 3, 48, base, pos, width, k, 10);
    PassOn(data, n, pos + width * 2 + 2, error, 1, 48, base, pos, width, k, 11);
  }

  /** `diffuse_jajuni` on plane `n`. */
  method DiffuseJaJuNi(data: array<byte>, n: nat, width: int, height: int, x: int, y: int, error: int)
    requires n < DEPTH && 0 <= x < width && 0 <= y < height && data.Length == DEPTH * (width * height)
    requires width >= 2
    modifies data
    ensures data[..] == Diffuse(KJaJuNi, old(data[..]), width, height, x, y, n, error)
  {
    var pos := y * width + x;
    if pos < (height - 2) * width - 2 {
      ghost var d, k: Kernel := data[..], KJaJuNi;
      assert Diffuse(k, d, width, height, x, y, n, error) == Apply(d, n, pos, width, k, TapCount(k), error);
      ReachInBounds(KJaJuNi, width, height, x, y);
      PassOn(data, n, pos + width * 0 + 1, error, 7, 48, d, pos, width, k, 0);
      PassOn(data, n, pos + width * 0 + 2, error, 5, 48, d, pos, width, k, 1);
      PassOn(data, n, pos + width * 1 - 2, error, 3, 48, d, pos, width, k, 2);
      PassOn(data, n, pos + width * 1 - 1, error, 5, 48, d, pos, width, k, 3);
      PassOn(data, n, pos + width * 1 + 0, error, 7, 48, d, pos, width, k, 4);
      PassOn(data, n, pos + width * 1 + 1, error, 5, 48, d, pos, width, k, 5);
      PassOn(data, n, pos + width * 1 + 2, error, 3, 48, d, pos, width, k, 6);
      JaJuNiLastRow(data, n, width, pos, error, d, k);
    }
  }

  /** The last row of `diffuse_stucki`. */
  method StuckiLastRow(data: array<byte>, n: nat, width: int, pos: int, error: int, ghost base: seq<byte>,
                       ghost k: Kernel)
    requires n < DEPTH && 0 <= pos && width >= 2 && DEPTH * (pos + 2 * width + 2) + n < data.Length
    requires k == KStucki && data[..] == Apply(base, n, pos, width, k, 7, error)
    modifies data
    ensures data[..] == Apply(base, n, pos, width, k, 12, error)
  {
    PassOn(data, n, pos + width * 2 - 2, error, 1, 48, base, pos, width, k, 7);
    PassOn(data, n, pos + width * 2 - 1, error, 1, 24, base, pos, width, k, 8);
    PassOn(data, n, pos + width * 2 + 0, error, 1, 12, base, pos, width, k, 9);
    PassOn(data, n, pos + width * 2 + 1, error, 1, 24, base, pos, width, k, 10);
    PassOn(data, n, pos + width * 2 + 2, error, 1, 48, base, pos, width, k, 11);
  }

  /** `diffuse_stucki` on plane `n`. */
  method DiffuseStucki(data: array<byte>, n: nat, width: int, height: int, x: int, y: int, error: int)
    requires n < DEPTH && 0 <= x < width && 0 <= y < height && data.Length == DEPTH * (width * height)
    requires width >= 2
    modifies data
    ensures data[..] == Diffuse(KStucki, old(data[..]), width, height, x, y, n, error)
  {
    var pos := y * width + x;
    if pos < (height - 2) * width - 2 {
      ghost var d, k: Kernel := data[..], KStucki;
      assert Diffuse(k, d, width, height, x, y, n, error) == Apply(d, n, pos, width, k, TapCount(k), error);
      ReachInBounds(KStucki, width, height, x, y);
      PassOn(data, n, pos + width * 0 + 1, error, 1, 6, d, pos, width, k, 0);
      PassOn(data, n, pos + width * 0 + 2, error, 1, 12, d, pos, width, k, 1);
      PassOn(data, n, pos + width * 1 - 2, error, 1, 24, d, pos, width, k, 2);
      PassOn(data, n, pos + width * 1 - 1, error, 1, 12, d, pos, width, k, 3);
      PassOn(data, n, pos + width * 1 + 0, error, 1, 6, d, pos, width, k, 4);
      PassOn(data, n, pos + width * 1 + 1, error, 1, 12, d, pos, width, k, 5);
      PassOn(data, n, pos + width * 1 + 2, error, 1, 24, d, pos, width, k, 6);
      StuckiLastRow(data, n, width, pos, error, d, k);
    }
  }

  /** `diffuse_burkes` on plane `n`. */
  method DiffuseBurkes(data: array<byte>, n: nat, width: int, height: int, x: int, y: int, error: int)
    requires n < DEPTH && 0 <= x < width && 0 <= y < height && data.Length == DEPTH * (width * height)
    requires width >= 2
    modifies data
    ensures data[..] == Diffuse(KBurkes, old(data[..]), width, height, x, y, n, error)
  {
    var pos := y * width + x;
    if pos < (height - 1) * width - 2 {
      ghost var d, k: Kernel := data[..], KBurkes;
      assert Diffuse(k, d, width, height, x, y, n, error) == Apply(d, n, pos, width, k, TapCount(k), error);
      ReachInBounds(KBurkes, width, height, x, y);
      PassOn(data, n, pos + width * 0 + 1, error, 1, 4, d, pos, width, k, 0);
      PassOn(data, n, pos + width * 0 + 2, error, 1, 8, d, pos, width, k, 1);
      PassOn(data, n, pos + width * 1 - 2, error, 1, 16, d, pos, width, k, 2);
      PassOn(data, n, pos + width * 1 - 1, error, 1, 8, d, pos, width, k, 3);
      PassOn(data, n, pos + width * 1 + 0, error, 1, 4, d, pos, width, k, 4);
      PassOn(data, n, pos + width * 1 + 1, error, 1, 8, d, pos, width, k, 5);
      PassOn(data, n, pos + width * 1 + 2, error, 1, 16, d, pos, width, k, 6);
    }
  }

  /** The call through `f_diffuse`. */
  method DiffuseWith(k: Kernel, data: array<byte>, n: nat, width: int, height: int, x: int, y: int, error: int)
    requires n < DEPTH && 0 <= x < width && 0 <= y < height && data.Length == DEPTH * (width * height)
    requires Wide(k) ==> width >= 2
    modifies data
    ensures data[..] == Diffuse(k, old(data[..]), width, height, x, y, n, error)
  {
    match k
    case KNone =>
    case KAtkinson => DiffuseAtkinson(data, n, width, height, x, y, error);
    case KFS => DiffuseFS(data, n, width, height, x, y, error);
    case KJaJuNi => DiffuseJaJuNi(data, n, width, height, x, y, error);
    case KStucki => DiffuseStucki(data, n, width, height, x, y, error);
    case KBurkes => DiffuseBurkes(data, n, width, height, x, y, error);
  }
}
