/** What the neighbours of a pixel receive: the kernels as tables of weights. */
module Impulses {
  import opened CArithmetic
  import opened Colors
  import opened Diffusion
  import opened Scan
  import opened ScanProperties

  /** The unit in which the weights of a kernel are given. */
  function Unit(k: Kernel): positive {
    match k
    case KNone => 1
    case KFS => 16
    case KAtkinson => 8
    case KJaJuNi => 48
    case KStucki => 48
    case KBurkes => 16
  }

  /** The row of weights `ws` around the cell `center`, for the cell at `offset`. */
  function InRow(ws: seq<nat>, center: int, offset: int): nat {
    var i := offset - center + |ws| / 2;
    if 0 <= i < |ws| then ws[i] else 0
  }

  /**
    The weight of the cell `offset` cells after the current one: the tables in the
    comments of the source, row by row, with the current column in the middle.
   */
  function WeightAt(k: Kernel, width: int, offset: int): nat {
    match k
    case KNone => 0
    case KFS =>
      InRow([0, 0, 7], 0, offset) + InRow([3, 5, 1], width, offset)
    case KAtkinson =>
      InRow([0, 0, 0, 1, 1], 0, offset) + InRow([1, 1, 1], width, offset) + InRow([1], 2 * width, offset)
    case KJaJuNi =>
      InRow([0, 0, 0, 7, 5], 0, offset) + InRow([3, 5, 7, 5, 3], width, offset)
      + InRow([1, 3, 5, 3, 1], 2 * width, offset)
    case KStucki =>
      InRow([0, 0, 0, 8, 4], 0, offset) + InRow([2, 4, 8, 4, 2], width, offset)
      + InRow([1, 2, 4, 2, 1], 2 * width, offset)
    case KBurkes =>
      InRow([0, 0, 0, 4, 2], 0, offset) + InRow([1, 2, 4, 2, 1], width, offset)
  }

  /** From this width on, no two entries of the table share a cell. */
  function TableWidth(k: Kernel): nat {
    match k
    case KNone => 1
    case KFS => 3
    case KAtkinson => 4
    case _ => 5
  }

  // ---- one cell -------------------------------------------------------------------------------

  /** A byte after the first `i` taps, of which those that reach `cell` change it. */
  function Received(k: Kernel, i: nat, v: byte, pos: int, width: int, cell: int, error: int): byte
    requires i <= TapCount(k)
  {
    if i == 0 then v else
    var w := Received(k, i - 1, v, pos, width, cell, error);
    var t := TapAt(k, i - 1);
    if Target(t, pos, width) == cell then ClampByte(w + Share(t, error)) else w
  }

  lemma {:induction false} ApplyByte(data: seq<byte>, n: nat, pos: int, width: int, k: Kernel, i: nat, error: int,
                                     cell: nat, m: nat)
    requires i <= TapCount(k) && n < DEPTH && m < DEPTH && DEPTH * cell + 2 < |data|
    ensures Apply(data, n, pos, width, k, i, error)[DEPTH * cell + m]
            == if m == n then Received(k, i, data[DEPTH * cell + m], pos, width, cell, error)
               else data[DEPTH * cell + m]
  {
    hide Share, TapAt, Target, Deposit;
    if i > 0 {
      ApplyByte(data, n, pos, width, k, i - 1, error, cell, m);
      var t := TapAt(k, i - 1);
      DepositByte(Apply(data, n, pos, width, k, i - 1, error), Target(t, pos, width), n, Share(t, error), cell, m);
    }
  }

  /** One store changes one byte, and saturates. */
  lemma DepositByte(data: seq<byte>, target: int, n: nat, amount: int, cell: nat, m: nat)
    requires n < DEPTH && m < DEPTH && DEPTH * cell + 2 < |data|
    ensures var old' := data[DEPTH * cell + m];
            var new' := Deposit(data, target, n, amount)[DEPTH * cell + m];
            if target != cell || m != n then new' == old'
            else new' as int == if old' + amount < 0 then 0 else if old' + amount > 255 then 255 else old' + amount
  {
  }

  /** The targets of the taps ascend. */
  lemma NextTarget(k: Kernel, i: nat, width: int)
    requires i + 1 < TapCount(k) && width >= TableWidth(k)
    ensures width * TapAt(k, i).dy + TapAt(k, i).dx < width * TapAt(k, i + 1).dy + TapAt(k, i + 1).dx
  {
    var t, u := TapAt(k, i), TapAt(k, i + 1);
    assert width * t.dy == if t.dy == 0 then 0 else if t.dy == 1 then width else 2 * width;
    assert width * u.dy == if u.dy == 0 then 0 else if u.dy == 1 then width else 2 * width;
  }

  lemma {:induction false} TargetsAscend(k: Kernel, i: nat, j: nat, pos: int, width: int)
    requires i < j < TapCount(k) && width >= TableWidth(k)
    ensures Target(TapAt(k, i), pos, width) < Target(TapAt(k, j), pos, width)
    decreases j
  {
    hide TapAt, TableWidth, TapCount;
    NextTarget(k, j - 1, width);
    if i < j - 1 {
      TargetsAscend(k, i, j - 1, pos, width);
    }
  }

  /** Of ascending targets at most one is the cell. */
  lemma {:induction false} ReceivedOnce(k: Kernel, i: nat, j: nat, v: byte, pos: int, width: int, cell: int,
                                        error: int)
    requires i <= TapCount(k) && j <= TapCount(k) && width >= TableWidth(k)
    requires j < TapCount(k) ==> Target(TapAt(k, j), pos, width) == cell
    requires forall h: nat | h < TapCount(k) && h != j :: Target(TapAt(k, h), pos, width) != cell
    ensures Received(k, i, v, pos, width, cell, error)
            == if j < i then ClampByte(v + Share(TapAt(k, j), error)) else v
  {
    hide TapAt, TableWidth, TapCount, Target, Share, ClampByte;
    if i > 0 {
      ReceivedOnce(k, i - 1, j, v, pos, width, cell, error);
    }
  }

  // ---- the table ------------------------------------------------------------------------------

  /** How far after the current cell the `i`-th tap lands. */
  function Distance(k: Kernel, i: nat, width: int): int
    requires i < TapCount(k)
  {
    var t := TapAt(k, i);
    (if t.dy == 0 then 0 else if t.dy == 1 then width else 2 * width) + t.dx
  }

  /** The coefficient of every tap is the weight of its cell. */
  lemma WeightOfTap(k: Kernel, i: nat, width: int)
    requires i < TapCount(k) && width >= TableWidth(k)
    ensures var t := TapAt(k, i);
            Unit(k) == t.den * (Unit(k) / t.den)
            && WeightAt(k, width, Distance(k, i, width)) == t.num * (Unit(k) / t.den)
  {
    hide WeightAt, Distance;
    match k
    case KNone =>
    case KFS => WeightFS(i, width);
    case KAtkinson => WeightAtkinson(i, width);
    case KJaJuNi => WeightJaJuNi(i, width);
    case KStucki => WeightStucki(i, width);
    case KBurkes => WeightBurkes(i, width);
  }

  /** Every other cell has the weight 0. */
  lemma WeightElsewhere(k: Kernel, offset: int, width: int)
    requires width >= TableWidth(k) && forall i: nat | i < TapCount(k) :: Distance(k, i, width) != offset
    ensures WeightAt(k, width, offset) == 0
  {
    hide WeightAt, Distance, TapAt;
    match k
    case KNone => WeightNone(width, offset);
    case KFS => ElsewhereFS(offset, width);
    case KAtkinson => ElsewhereAtkinson(offset, width);
    case KJaJuNi => ElsewhereJaJuNi(offset, width);
    case KStucki => ElsewhereStucki(offset, width);
    case KBurkes => ElsewhereBurkes(offset, width);
  }

  lemma WeightNone(width: int, offset: int)
    ensures WeightAt(KNone, width, offset) == 0
  {
  }

  lemma WeightFS(i: nat, width: int)
    requires i < 4 && width >= 3
    ensures var t := TapAt(KFS, i);
            WeightAt(KFS, width, Distance(KFS, i, width)) == t.num * (16 / t.den)
  {
  }

  lemma ElsewhereFS(offset: int, width: int)
    requires width >= 3 && forall i: nat | i < 4 :: Distance(KFS, i, width) != offset
    ensures WeightAt(KFS, width, offset) == 0
  {
    assert Distance(KFS, 0, width) != offset;
    assert Distance(KFS, 1, width) != offset;
    assert Distance(KFS, 2, width) != offset;
    assert Distance(KFS, 3, width) != offset;
  }

  lemma WeightAtkinson(i: nat, width: int)
    requires i < 6 && width >= 4
    ensures var t := TapAt(KAtkinson, i);
            WeightAt(KAtkinson, width, Distance(KAtkinson, i, width)) == t.num * (8 / t.den)
  {
  }

  lemma ElsewhereAtkinson(offset: int, width: int)
    requires width >= 4 && forall i: nat | i < 6 :: Distance(KAtkinson, i, width) != offset
    ensures WeightAt(KAtkinson, width, offset) == 0
  {
    assert Distance(KAtkinson, 0, width) != offset;
    assert Distance(KAtkinson, 1, width) != offset;
    assert Distance(KAtkinson, 2, width) != offset;
    assert Distance(KAtkinson, 3, width) != offset;
    assert Distance(KAtkinson, 4, width) != offset;
    assert Distance(KAtkinson, 5, width) != offset;
  }

  lemma WeightJaJuNi(i: nat, width: int)
    requires i < 12 && width >= 5
    ensures var t := TapAt(KJaJuNi, i);
            WeightAt(KJaJuNi, width, Distance(KJaJuNi, i, width)) == t.num * (48 / t.den)
  {
  }

  lemma ElsewhereJaJuNi(offset: int, width: int)
    requires width >= 5 && forall i: nat | i < 12 :: Distance(KJaJuNi, i, width) != offset
    ensures WeightAt(KJaJuNi, width, offset) == 0
  {
    assert Distance(KJaJuNi, 0, width) != offset;
    assert Distance(KJaJuNi, 1, width) != offset;
    assert Distance(KJaJuNi, 2, width) != offset;
    assert Distance(KJaJuNi, 3, width) != offset;
    assert Distance(KJaJuNi, 4, width) != offset;
    assert Distance(KJaJuNi, 5, width) != offset;
    assert Distance(KJaJuNi, 6, width) != offset;
    assert Distance(KJaJuNi, 7, width) != offset;
    assert Distance(KJaJuNi, 8, width) != offset;
    assert Distance(KJaJuNi, 9, width) != offset;
    assert Distance(KJaJuNi, 10, width) != offset;
    assert Distance(KJaJuNi, 11, width) != offset;
  }

  lemma WeightStucki(i: nat, width: int)
    requires i < 12 && width >= 5
    ensures var t := TapAt(KStucki, i);
            WeightAt(KStucki, width, Distance(KStucki, i, width)) == t.num * (48 / t.den)
  {
  }

  lemma ElsewhereStucki(offset: int, width: int)
    requires width >= 5 && forall i: nat | i < 12 :: Distance(KStucki, i, width) != offset
    ensures WeightAt(KStucki, width, offset) == 0
  {
    assert Distance(KStucki, 0, width) != offset;
    assert Distance(KStucki, 1, width) != offset;
    assert Distance(KStucki, 2, width) != offset;
    assert Distance(KStucki, 3, width) != offset;
    assert Distance(KStucki, 4, width) != offset;
    assert Distance(KStucki, 5, width) != offset;
    assert Distance(KStucki, 6, width) != offset;
    assert Distance(KStucki, 7, width) != offset;
    assert Distance(KStucki, 8, width) != offset;
    assert Distance(KStucki, 9, width) != offset;
    assert Distance(KStucki, 10, width) != offset;
    assert Distance(KStucki, 11, width) != offset;
  }

  lemma WeightBurkes(i: nat, width: int)
    requires i < 7 && width >= 5
    ensures var t := TapAt(KBurkes, i);
            WeightAt(KBurkes, width, Distance(KBurkes, i, width)) == t.num * (16 / t.den)
  {
  }

  lemma ElsewhereBurkes(offset: int, width: int)
    requires width >= 5 && forall i: nat | i < 7 :: Distance(KBurkes, i, width) != offset
    ensures WeightAt(KBurkes, width, offset) == 0
  {
    assert Distance(KBurkes, 0, width) != offset;
    assert Distance(KBurkes, 1, width) != offset;
    assert Distance(KBurkes, 2, width) != offset;
    assert Distance(KBurkes, 3, width) != offset;
    assert Distance(KBurkes, 4, width) != offset;
    assert Distance(KBurkes, 5, width) != offset;
    assert Distance(KBurkes, 6, width) != offset;
  }

  lemma DistanceOfTarget(k: Kernel, i: nat, pos: int, width: int)
    requires i < TapCount(k)
    ensures Target(TapAt(k, i), pos, width) == pos + Distance(k, i, width)
  {
    var t := TapAt(k, i);
    assert width * t.dy == if t.dy == 0 then 0 else if t.dy == 1 then width else 2 * width;
  }

  /** A quotient is determined by its bounds. */
  lemma QuotientIs(a: int, d: positive, q: int)
    requires q * d <= a < q * d + d
    ensures a / d == q
  {
    var v := a / d;
    assert v * d <= a < v * d + d;
    assert (q + 1) * d == q * d + d && (v + 1) * d == v * d + d;
    CancelFactor(v, q + 1, d);
    CancelFactor(q, v + 1, d);
  }

  lemma ReduceQuotient(a: nat, d: positive, f: positive)
    requires d * f > 0
    ensures (a * f) / (d * f) == a / d
  {
    var q, r := a / d, a % d;
    Scaled(q, d, r, f);
    assert a == q * d + r;
    QuotientIs(a * f, d * f, q);
  }

  lemma Scaled(q: nat, d: positive, r: nat, f: positive)
    requires r < d
    ensures (q * d + r) * f == q * (d * f) + r * f && 0 <= r * f < d * f
  {
    MulMonotone(r + 1, d, f);
    Regroup(q, d, f);
  }

  lemma Regroup(a: int, b: int, c: int)
    ensures (a * b) * c == a * (b * c)
  {
  }

  /** A common factor of numerator and denominator changes no share. */
  lemma ReduceShare(t: Tap, f: positive, error: int, w: int, u: positive)
    requires w == t.num * f && u == t.den * f
    ensures TruncDiv(error * w, u) == Share(t, error)
  {
    var a := error * t.num;
    assert error * w == a * f by { Regroup(error, t.num, f); }
    if a >= 0 {
      ReduceQuotient(a, t.den, f);
      assert a * f >= 0;
    } else {
      ReduceQuotient(-a, t.den, f);
      assert (-a) * f == -(a * f) && (-a) * f > 0;
    }
  }

  lemma NoGain(v: byte, error: int, u: positive)
    ensures TruncDiv(error * 0, u) == 0
  {
  }

  // ---- what one pixel does ----------------------------------------------------------------------

  /** The byte that `v` becomes when `amount` is added with saturation. */
  function Saturated(v: int): int { if v < 0 then 0 else if v > 255 then 255 else v }

  /** Every cell receives its share, and none receives another. */
  lemma ReceivedShare(k: Kernel, v: byte, pos: int, width: int, cell: int, error: int)
    requires width >= TableWidth(k)
    ensures Received(k, TapCount(k), v, pos, width, cell, error) as int
            == Saturated(v + TruncDiv(error * WeightAt(k, width, cell - pos), Unit(k)))
  {
    hide TapAt, TableWidth, TapCount, Target, Share, WeightAt, Unit, Distance, Received, TruncDiv;
    forall i: nat | i < TapCount(k) ensures Target(TapAt(k, i), pos, width) == pos + Distance(k, i, width) {
      DistanceOfTarget(k, i, pos, width);
    }
    if j: nat :| j < TapCount(k) && Distance(k, j, width) == cell - pos {
      forall h: nat | h < TapCount(k) && h != j ensures Target(TapAt(k, h), pos, width) != cell {
        if h < j {
          TargetsAscend(k, h, j, pos, width);
        } else {
          TargetsAscend(k, j, h, pos, width);
        }
      }
      ReceivedOnce(k, TapCount(k), j, v, pos, width, cell, error);
      WeightOfTap(k, j, width);
      ReduceShare(TapAt(k, j), Unit(k) / TapAt(k, j).den, error, WeightAt(k, width, cell - pos), Unit(k));
    } else {
      ReceivedOnce(k, TapCount(k), TapCount(k), v, pos, width, cell, error);
      WeightElsewhere(k, cell - pos, width);
      NoGain(v, error, Unit(k));
    }
  }

  /** Where the kernels write at all, in pixels. */
  lemma FiresWhere(k: Kernel, width: int, height: int, x: int, y: int)
    requires 0 <= x < width && 0 <= y < height
    ensures Fires(k, width, height, x, y) <==> match k
              case KNone => false
              case KFS => x + 1 < width && y + 1 < height
              case KAtkinson => y + 2 < height
              case KBurkes => y * width + x + width + 2 < width * height
              case _ => y * width + x + 2 * width + 2 < width * height
  {
    assert (height - 1) * width == width * height - width;
    assert (height - 2) * width == width * height - 2 * width;
  }

  /** The whole buffer after one plane of one pixel was diffused. */
  lemma DiffusedByte(k: Kernel, data: seq<byte>, width: int, height: int, x: int, y: int, n: nat, error: int,
                     cell: nat, m: nat)
    requires n < DEPTH && m < DEPTH && DEPTH * cell + 2 < |data|
    ensures Diffuse(k, data, width, height, x, y, n, error)[DEPTH * cell + m]
            == if m == n && Fires(k, width, height, x, y)
               then Received(k, TapCount(k), data[DEPTH * cell + m], y * width + x, width, cell, error)
               else data[DEPTH * cell + m]
  {
    hide Fires, Apply, Received, TapCount;
    if Fires(k, width, height, x, y) {
      ApplyByte(data, n, y * width + x, width, k, TapCount(k), error, cell, m);
    }
  }

  lemma {:induction false} PlanesByte(job: Job, data: seq<byte>, x: int, y: int, index: nat, n: nat, cell: nat, m: nat)
    requires n <= DEPTH && 0 <= y * job.width + x && DEPTH * (y * job.width + x) + 2 < |data|
    requires DEPTH * index + 2 < |job.palette| && m < DEPTH && DEPTH * cell + 2 < |data|
    ensures DiffusePlanes(job, data, x, y, index, n)[DEPTH * cell + m]
            == if m < n && Fires(job.kernel, job.width, job.height, x, y)
               then Received(job.kernel, TapCount(job.kernel), data[DEPTH * cell + m], y * job.width + x, job.width,
                             cell, data[DEPTH * (y * job.width + x) + m] as int - job.palette[DEPTH * index + m])
               else data[DEPTH * cell + m]
  {
    hide Fires, Diffuse, Received, TapCount;
    if n > 0 {
      PlanesByte(job, data, x, y, index, n - 1, cell, m);
      PlanesByte(job, data, x, y, index, n - 1, y * job.width + x, n - 1);
      var d := DiffusePlanes(job, data, x, y, index, n - 1);
      DiffusedByte(job.kernel, d, job.width, job.height, x, y, n - 1,
                   Offset(job, d, y * job.width + x, n - 1, index), cell, m);
    }
  }

  /**
    One step of the scan, byte by byte, for images of any width.  The error is a
    component of the pixel minus that component of the palette colour drawn for
    it.  A cell receives the share of each tap that reaches it, with saturation,
    and every other byte of the image stays as it is.
   */
  lemma StepReceives(job: Job, s: State, i: nat, cell: nat, n: nat)
    requires Fits(job, s) && s.indices == [] && i < job.size && cell < job.size && n < 3 && job.width > 0
    ensures var before, after := ScanTo(job, s, i).data, ScanTo(job, s, i + 1).data;
            var error := before[3 * i + n] as int - job.palette[3 * IndexOf(job, s, i) + n];
            after[3 * cell + n]
            == if Fires(job.kernel, job.width, job.height, Col(job.width, i), Row(job.width, i))
               then Received(job.kernel, TapCount(job.kernel), before[3 * cell + n], i, job.width, cell, error)
               else before[3 * cell + n]
  {
    hide Received, TapCount, Fires, Diffuse, DiffusePlanes, Answer, CacheAfter, Step, ScanTo, Looked;
    Raster(i, job.width, job.height);
    StepFields(job, s, i);
    PlanesByte(job, ScanTo(job, s, i).data, Col(job.width, i), Row(job.width, i), IndexOf(job, s, i), DEPTH, cell, n);
  }

  /**
    The same by the table of weights, for images as wide as the table: the error
    is multiplied by the weight of each cell, divided with truncation, and added
    with saturation.
   */
  lemma StepSpreadsError(job: Job, s: State, i: nat, cell: nat, n: nat)
    requires Fits(job, s) && s.indices == [] && i < job.size && cell < job.size && n < 3
    requires job.width >= TableWidth(job.kernel)
    ensures var before, after := ScanTo(job, s, i).data, ScanTo(job, s, i + 1).data;
            var error := before[3 * i + n] as int - job.palette[3 * IndexOf(job, s, i) + n];
            var amount := if Fires(job.kernel, job.width, job.height, Col(job.width, i), Row(job.width, i))
                          then TruncDiv(error * WeightAt(job.kernel, job.width, cell - i), Unit(job.kernel)) else 0;
            var sum := before[3 * cell + n] as int + amount;
            after[3 * cell + n] as int == if sum < 0 then 0 else if sum > 255 then 255 else sum
  {
    hide WeightAt, Unit, TruncDiv, Fires, Received, TapCount, Answer, CacheAfter, Step, ScanTo, Looked;
    StepReceives(job, s, i, cell, n);
    var before := ScanTo(job, s, i).data;
    var error := before[3 * i + n] as int - job.palette[3 * IndexOf(job, s, i) + n];
    ReceivedShare(job.kernel, before[3 * cell + n], i, job.width, cell, error);
  }

  /**
    What each diffusion method adds to the right neighbour of a pixel that is
    neither in the last column nor in the last rows: 7/16 of the error for
    Floyd-Steinberg, 1/8 for Atkinson, 7/48, 8/48 and 4/16 for the wide kernels,
    and nothing for any other method.
   */
  lemma MethodSpreads(job: Job, s: State, m: DiffuseMethod, i: nat, n: nat)
    requires Fits(job, s) && s.indices == [] && i + 2 * job.width + 2 < job.size && n < 3
    requires job.kernel == SelectKernel(m, job.width) && job.width >= 5
    requires Col(job.width, i) + 1 < job.width && Row(job.width, i) + 2 < job.height
    ensures var before, after := ScanTo(job, s, i).data, ScanTo(job, s, i + 1).data;
            var error := before[3 * i + n] as int - job.palette[3 * IndexOf(job, s, i) + n];
            var amount := match m
                          case DiffuseFS => TruncDiv(error * 7, 16)
                          case DiffuseAtkinson => TruncDiv(error * 1, 8)
                          case DiffuseJaJuNi => TruncDiv(error * 7, 48)
                          case DiffuseStucki => TruncDiv(error * 8, 48)
                          case DiffuseBurkes => TruncDiv(error * 4, 16)
                          case _ => 0;
            var sum := before[3 * (i + 1) + n] as int + amount;
            after[3 * (i + 1) + n] as int == if sum < 0 then 0 else if sum > 255 then 255 else sum
  {
    hide TruncDiv, ScanTo, Fires, WeightAt, Unit;
    Raster(i, job.width, job.height);
    FiresWhere(job.kernel, job.width, job.height, Col(job.width, i), Row(job.width, i));
    StepSpreadsError(job, s, i, i + 1, n);
    RightWeights(job.width);
  }

  lemma RightWeights(width: int)
    requires width >= 5
    ensures WeightAt(KFS, width, 1) == 7 && Unit(KFS) == 16
    ensures WeightAt(KAtkinson, width, 1) == 1 && Unit(KAtkinson) == 8
    ensures WeightAt(KJaJuNi, width, 1) == 7 && Unit(KJaJuNi) == 48
    ensures WeightAt(KStucki, width, 1) == 8 && Unit(KStucki) == 48
    ensures WeightAt(KBurkes, width, 1) == 4 && Unit(KBurkes) == 16
  {
  }
}
