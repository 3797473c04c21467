/** How much error the kernels pass on, per pixel and over a whole scan. */
module Conservation {
  import opened CArithmetic
  import opened Colors
  import opened Diffusion
  import opened Scan
  import opened ScanProperties

  // ---- one pixel ------------------------------------------------------------------------

  /** The sum of the first `i` shares of an error. */
  function Passed(k: Kernel, i: nat, error: int): int
    requires i <= TapCount(k)
  {
    if i == 0 then 0 else Passed(k, i - 1, error) + Share(TapAt(k, i - 1), error)
  }

  /** A tap's coefficient in 48ths; every denominator divides 48. */
  function Weight(t: Tap): int { t.num * (48 / t.den) }

  function WeightSum(k: Kernel, i: nat): int
    requires i <= TapCount(k)
  {
    if i == 0 then 0 else WeightSum(k, i - 1) + Weight(TapAt(k, i - 1))
  }

  /** The kernels whose coefficients add up to 1. */
  predicate FullWeight(k: Kernel) { k == KFS || k == KJaJuNi || k == KBurkes }

  /** Floyd-Steinberg, Jarvis-Judice-Ninke and Burkes weigh 48/48, Stucki 42/48, Atkinson 36/48. */
  lemma KernelWeight(k: Kernel)
    ensures WeightSum(k, TapCount(k)) ==
            if FullWeight(k) then 48 else if k == KStucki then 42 else if k == KAtkinson then 36 else 0
  {
    match k
    case KNone =>
    case KFS => WeightFS(k);
    case KAtkinson => WeightAtkinson(k);
    case KJaJuNi => WeightJaJuNi(k);
    case KStucki => WeightStucki(k);
    case KBurkes => WeightBurkes(k);
  }

  lemma WeightFS(k: Kernel)
    requires k == KFS
    ensures WeightSum(k, 4) == 48
  {
    assert WeightSum(k, 1) == 21;
    assert WeightSum(k, 2) == 30;
    assert WeightSum(k, 3) == 45;
    assert WeightSum(k, 4) == 48;
  }

  lemma WeightAtkinson(k: Kernel)
    requires k == KAtkinson
    ensures WeightSum(k, 6) == 36
  {
    assert WeightSum(k, 1) == 6;
    assert WeightSum(k, 2) == 12;
    assert WeightSum(k, 3) == 18;
    assert WeightSum(k, 4) == 24;
    assert WeightSum(k, 5) == 30;
    assert WeightSum(k, 6) == 36;
  }

  lemma WeightJaJuNi(k: Kernel)
    requires k == KJaJuNi
    ensures WeightSum(k, 12) == 48
  {
    assert WeightSum(k, 1) == 7;
    assert WeightSum(k, 2) == 12;
    assert WeightSum(k, 3) == 15;
    assert WeightSum(k, 4) == 20;
    assert WeightSum(k, 5) == 27;
    assert WeightSum(k, 6) == 32;
    assert WeightSum(k, 7) == 35;
    assert WeightSum(k, 8) == 36;
    assert WeightSum(k, 9) == 39;
    assert WeightSum(k, 10) == 44;
    assert WeightSum(k, 11) == 47;
    assert WeightSum(k, 12) == 48;
  }

  lemma WeightStucki(k: Kernel)
    requires k == KStucki
    ensures WeightSum(k, 12) == 42
  {
    assert WeightSum(k, 1) == 8;
    assert WeightSum(k, 2) == 12;
    assert WeightSum(k, 3) == 14;
    assert WeightSum(k, 4) == 18;
    assert WeightSum(k, 5) == 26;
    assert WeightSum(k, 6) == 30;
    assert WeightSum(k, 7) == 32;
    assert WeightSum(k, 8) == 33;
    assert WeightSum(k, 9) == 35;
    assert WeightSum(k, 10) == 39;
    assert WeightSum(k, 11) == 41;
    assert WeightSum(k, 12) == 42;
  }

  lemma WeightBurkes(k: Kernel)
    requires k == KBurkes
    ensures WeightSum(k, 7) == 48
  {
    assert WeightSum(k, 1) == 12;
    assert WeightSum(k, 2) == 18;
    assert WeightSum(k, 3) == 21;
    assert WeightSum(k, 4) == 27;
    assert WeightSum(k, 5) == 39;
    assert WeightSum(k, 6) == 45;
    assert WeightSum(k, 7) == 48;
  }

  predicate Divides48(den: nat) {
    den == 4 || den == 6 || den == 8 || den == 12 || den == 16 || den == 24 || den == 48
  }

  lemma TapDivides48(k: Kernel, i: nat)
    requires i < TapCount(k)
    ensures Divides48(TapAt(k, i).den)
  {
  }

  /** One share lies between zero and its exact value, less than one away from it (in 48ths). */
  lemma ShareBounds(t: Tap, error: nat)
    requires Divides48(t.den)
    ensures 0 <= Share(t, error)
    ensures error * Weight(t) - 47 <= 48 * Share(t, error) <= error * Weight(t)
  {
    var x := error * t.num;
    QuotientBounds(x, t.den);
    assert x * (48 / t.den) == error * Weight(t) by { Regroup(error, t.num, 48 / t.den); }
  }

  /** A quotient of a divisor of 48, in 48ths. */
  lemma QuotientBounds(x: nat, den: nat)
    requires Divides48(den)
    ensures 0 <= 48 * (x / den) <= x * (48 / den) <= 48 * (x / den) + 47
  {
    if den == 4 {
    } else if den == 6 {
    } else if den == 8 {
    } else if den == 12 {
    } else if den == 16 {
    } else if den == 24 {
    } else {
    }
  }

  lemma Regroup(a: int, b: int, c: int)
    ensures (a * b) * c == a * (b * c)
  {
  }

  lemma ShareNegates(t: Tap, error: int)
    ensures Share(t, -error) == -Share(t, error)
  {
    hide TruncDiv;
    assert (-error) * t.num == -(error * t.num) by { NegatedFactor(error, t.num); }
    TruncNegates(error * t.num, t.den);
  }

  lemma NegatedFactor(a: int, b: int)
    ensures (-a) * b == -(a * b)
  {
  }

  /** Truncation is symmetric. */
  lemma TruncNegates(a: int, d: positive)
    ensures TruncDiv(-a, d) == -TruncDiv(a, d)
  {
  }

  lemma {:induction false} PassedNegates(k: Kernel, i: nat, error: int)
    requires i <= TapCount(k)
    ensures Passed(k, i, -error) == -Passed(k, i, error)
  {
    if i > 0 {
      PassedNegates(k, i - 1, error);
      ShareNegates(TapAt(k, i - 1), error);
    }
  }

  lemma AddBounds(e: nat, w: int, v: int, p: int, s: int, i: nat)
    requires e * w - 47 * i <= 48 * p <= e * w
    requires e * v - 47 <= 48 * s <= e * v
    ensures e * (w + v) - 47 * (i + 1) <= 48 * (p + s) <= e * (w + v)
  {
    assert e * (w + v) == e * w + e * v;
  }

  lemma {:induction false} PassedBounds(k: Kernel, i: nat, error: nat)
    requires i <= TapCount(k)
    ensures 0 <= Passed(k, i, error)
    ensures error * WeightSum(k, i) - 47 * i <= 48 * Passed(k, i, error) <= error * WeightSum(k, i)
  {
    if i > 0 {
      PassedBounds(k, i - 1, error);
      var t := TapAt(k, i - 1);
      TapDivides48(k, i - 1);
      ShareBounds(t, error);
      AddBounds(error, WeightSum(k, i - 1), Weight(t), Passed(k, i - 1, error), Share(t, error), i - 1);
    }
  }

  /**
    What a firing kernel passes on, for every integer error: never more than the
    error, never with the other sign.  Full-weight kernels lose at most one unit
    less than they have taps; Stucki passes on 42/48 and Atkinson 36/48, up to
    the same rounding.
   */
  lemma ErrorConserved(k: Kernel, error: int)
    ensures var p := Passed(k, TapCount(k), error);
            && (error >= 0 ==> 0 <= p <= error)
            && (error <= 0 ==> error <= p <= 0)
            && (FullWeight(k) ==> Abs(error - p) <= TapCount(k) - 1)
            && (k == KStucki ==> 0 <= 42 * Abs(error) - 48 * Abs(p) <= 47 * 12)
            && (k == KAtkinson ==> 0 <= 36 * Abs(error) - 48 * Abs(p) <= 47 * 6)
  {
    hide Passed, WeightSum;
    KernelWeight(k);
    PassedBounds(k, TapCount(k), Abs(error));
    PassedNegates(k, TapCount(k), error);
  }

  // ---- a whole scan ------------------------------------------------------------------------

  /** The sum of plane `n` over the first `cells` pixels. */
  function Total(data: seq<byte>, n: nat, cells: nat): int
    requires n < DEPTH && DEPTH * cells <= |data|
  {
    if cells == 0 then 0 else Total(data, n, cells - 1) + data[DEPTH * (cells - 1) + n]
  }

  lemma {:induction false} TotalDeposit(data: seq<byte>, cell: nat, n: nat, amount: int, m: nat, cells: nat)
    requires n < DEPTH && m < DEPTH && DEPTH * cells <= |data| && DEPTH * cell + 2 < |data|
    requires 0 <= data[DEPTH * cell + n] + amount <= 255
    ensures Total(Deposit(data, cell, n, amount), m, cells)
            == Total(data, m, cells) + if m == n && cell < cells then amount else 0
  {
    if cells > 0 {
      TotalDeposit(data, cell, n, amount, m, cells - 1);
      DepositOneByte(data, cell, n, amount, cells - 1, m);
    }
  }

  lemma DepositOneByte(data: seq<byte>, cell: nat, n: nat, amount: int, c: nat, m: nat)
    requires n < DEPTH && m < DEPTH && DEPTH * cell + 2 < |data| && DEPTH * c + 2 < |data|
    requires 0 <= data[DEPTH * cell + n] + amount <= 255
    ensures Deposit(data, cell, n, amount)[DEPTH * c + m]
            == data[DEPTH * c + m] + if m == n && c == cell then amount else 0
  {
  }

  /** The store of one tap does not saturate. */
  ghost predicate Unclamped(data: seq<byte>, cell: int, n: nat, amount: int) {
    0 <= cell && n < DEPTH && DEPTH * cell + 2 < |data| && 0 <= data[DEPTH * cell + n] + amount <= 255
  }

  /** None of the first `i` stores of a kernel saturates. */
  ghost predicate ApplyUnclamped(data: seq<byte>, n: nat, pos: int, width: int, k: Kernel, i: nat, error: int)
    requires i <= TapCount(k)
  {
    i == 0 ||
    (ApplyUnclamped(data, n, pos, width, k, i - 1, error) &&
     Unclamped(Apply(data, n, pos, width, k, i - 1, error), Target(TapAt(k, i - 1), pos, width), n,
               Share(TapAt(k, i - 1), error)))
  }

  lemma {:induction false} TotalApply(data: seq<byte>, n: nat, pos: int, width: int, k: Kernel, i: nat, error: int,
                                      m: nat, cells: nat)
    requires n < DEPTH && m < DEPTH && DEPTH * cells == |data| && i <= TapCount(k)
    requires ApplyUnclamped(data, n, pos, width, k, i, error)
    ensures Total(Apply(data, n, pos, width, k, i, error), m, cells)
            == Total(data, m, cells) + if m == n then Passed(k, i, error) else 0
  {
    hide Share, Deposit, Total, TapAt, Target;
    if i > 0 {
      TotalApply(data, n, pos, width, k, i - 1, error, m, cells);
      var t := TapAt(k, i - 1);
      TotalDeposit(Apply(data, n, pos, width, k, i - 1, error), Target(t, pos, width), n, Share(t, error), m, cells);
    }
  }

  /** The kernel of `job` writes at the `i`-th pixel. */
  predicate FiresAt(job: Job, i: nat)
    requires job.width > 0
  {
    Fires(job.kernel, job.width, job.height, Col(job.width, i), Row(job.width, i))
  }

  /** The buffer when plane `n` of pixel `i` is diffused. */
  function BeforePlane(job: Job, s: State, i: nat, n: nat): (d: seq<byte>)
    requires Fits(job, s) && s.indices == [] && i < job.size && n <= DEPTH
    ensures |d| == 3 * job.size
  {
    Raster(i, job.width, job.height);
    DiffusePlanes(job, ScanTo(job, s, i).data, Col(job.width, i), Row(job.width, i), IndexOf(job, s, i), n)
  }

  /** The error of plane `n` at pixel `i`: the byte that the buffer holds minus the byte that is drawn. */
  function ErrorAt(job: Job, s: State, i: nat, n: nat): int
    requires Fits(job, s) && s.indices == [] && i < job.size && n < DEPTH
  {
    BeforePlane(job, s, i, n)[3 * i + n] as int - job.palette[3 * IndexOf(job, s, i) + n]
  }

  /** No store of the whole scan saturates. */
  ghost predicate NothingClamps(job: Job, s: State)
    requires Fits(job, s) && s.indices == []
  {
    forall i: nat, n: nat | i < job.size && n < DEPTH :: StepUnclamped(job, s, i, n)
  }

  ghost predicate StepUnclamped(job: Job, s: State, i: nat, n: nat)
    requires Fits(job, s) && s.indices == [] && i < job.size && n < DEPTH
  {
    Raster(i, job.width, job.height);
    FiresAt(job, i) ==>
      ApplyUnclamped(BeforePlane(job, s, i, n), n, i, job.width, job.kernel, TapCount(job.kernel),
          ErrorAt(job, s, i, n))
  }

  /** One plane of one pixel, seen from the total of a plane. */
  lemma PlaneStep(job: Job, s: State, i: nat, n: nat, m: nat)
    requires Fits(job, s) && s.indices == [] && i < job.size && n < DEPTH && m < DEPTH
    requires job.width > 0 && StepUnclamped(job, s, i, n)
    ensures Total(BeforePlane(job, s, i, n + 1), m, job.size)
            == Total(BeforePlane(job, s, i, n), m, job.size)
               + if FiresAt(job, i) && m == n
                  then Passed(job.kernel, TapCount(job.kernel), ErrorAt(job, s, i, n)) else 0
  {
    hide Share, Step, Fires, Passed, Total, TapAt, Apply, ScanTo;
    var d, error := BeforePlane(job, s, i, n), ErrorAt(job, s, i, n);
    assert BeforePlane(job, s, i, n + 1)
        == Diffuse(job.kernel, d, job.width, job.height, Col(job.width, i), Row(job.width, i), n, error);
    if FiresAt(job, i) {
      TotalApply(d, n, i, job.width, job.kernel, TapCount(job.kernel), error, m, job.size);
    }
  }

  lemma {:induction false} TotalPlanes(job: Job, s: State, i: nat, n: nat, m: nat)
    requires Fits(job, s) && s.indices == [] && i < job.size && n <= DEPTH && m < DEPTH
    requires job.width > 0 && NothingClamps(job, s)
    ensures Total(BeforePlane(job, s, i, n), m, job.size)
            == Total(ScanTo(job, s, i).data, m, job.size)
               + if FiresAt(job, i) && m < n then Passed(job.kernel, TapCount(job.kernel), ErrorAt(job, s, i, m)) else 0
  {
    hide Share, Step, Fires, Offset, Passed, Total, TapAt, Apply, Diffuse, ScanTo;
    if n > 0 {
      TotalPlanes(job, s, i, n - 1, m);
      PlaneStep(job, s, i, n - 1, m);
    }
  }

  /** What the first `count` pixels hand to the kernel on plane `n`. */
  function Diffused(job: Job, s: State, n: nat, count: nat): int
    requires Fits(job, s) && s.indices == [] && job.width > 0 && n < DEPTH && count <= job.size
  {
    if count == 0 then 0
    else Diffused(job, s, n, count - 1) + if FiresAt(job, count - 1) then ErrorAt(job, s, count - 1, n) else 0
  }

  /** How many of the first `count` pixels diffuse at all. */
  function Diffusing(job: Job, count: nat): nat
    requires job.width > 0
  {
    if count == 0 then 0 else Diffusing(job, count - 1) + if FiresAt(job, count - 1) then 1 else 0
  }

  /** One step, seen from the total of a plane. */
  lemma TotalStep(job: Job, s: State, m: nat, i: nat)
    requires Fits(job, s) && s.indices == [] && job.width > 0 && m < DEPTH && i < job.size
    requires NothingClamps(job, s)
    ensures Total(ScanTo(job, s, i + 1).data, m, job.size)
            == Total(ScanTo(job, s, i).data, m, job.size)
               + if FiresAt(job, i) then Passed(job.kernel, TapCount(job.kernel), ErrorAt(job, s, i, m)) else 0
  {
    hide Share, Step, Fires, Offset, ScanTo, Total, Passed, TapAt, Apply, Diffuse, NothingClamps;
    StepFields(job, s, i);
    TotalPlanes(job, s, i, DEPTH, m);
  }

  /**
    Conservation over a scan.  If nothing saturates, a full-weight kernel keeps
    each plane's total plus the errors it was handed, up to (taps - 1) per
    diffusing pixel.
   */
  lemma {:induction false} ScanConserves(job: Job, s: State, n: nat, count: nat)
    requires Fits(job, s) && s.indices == [] && job.width > 0 && n < DEPTH && count <= job.size
    requires NothingClamps(job, s) && FullWeight(job.kernel)
    ensures Abs(Total(ScanTo(job, s, count).data, n, job.size) - Total(s.data, n, job.size)
            - Diffused(job, s, n, count))
            <= (TapCount(job.kernel) - 1) * Diffusing(job, count)
  {
    hide Share, Step, Fires, Offset, Total, Passed, ErrorAt, BeforePlane, NothingClamps;
    if count > 0 {
      ScanConserves(job, s, n, count - 1);
      TotalStep(job, s, n, count - 1);
      var e := ErrorAt(job, s, count - 1, n);
      ErrorConserved(job.kernel, e);
      if FiresAt(job, count - 1) {
        Drift(Total(ScanTo(job, s, count - 1).data, n, job.size) - Total(s.data, n, job.size)
              - Diffused(job, s, n, count - 1),
              e, Passed(job.kernel, TapCount(job.kernel), e), TapCount(job.kernel) - 1, Diffusing(job, count - 1));
      }
    }
  }

  lemma Drift(drift: int, e: int, p: int, a: int, c: int)
    requires Abs(drift) <= a * c && Abs(e - p) <= a
    ensures Abs(drift + p - e) <= a * (c + 1)
  {
    assert a * (c + 1) == a * c + a;
  }
}
