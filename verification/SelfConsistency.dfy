/**
  The image widths for which an exact scan is self-consistent: every recorded
  index is the first nearest one to what the buffer finally holds.
 */
module SelfConsistency {
  import opened CArithmetic
  import opened Colors
  import opened Diffusion
  import opened Lookup
  import opened Scan
  import opened ScanProperties

  /** Self-consistency for every image of the given size. */
  ghost predicate AlwaysSelfConsistent(k: Kernel, width: int, height: int) {
    forall job: Job, s: State | IsScan(job, s, k, width, height) :: SelfConsistent(job, s)
  }

  /** A scan of an image of the given size with the exact lookup. */
  ghost predicate IsScan(job: Job, s: State, k: Kernel, width: int, height: int) {
    && Fits(job, s) && s.indices == [] && job.lookup == LkNormal
    && job.kernel == k && job.width == width && job.height == height
  }

  /**
    The exact condition: it can be checked on the kernel and the size of the
    image alone.  The source guards widths below 2 only, so width 2 (or 1, for
    Atkinson) lets a kernel rewrite the very pixel it has just answered for,
    unless the image is too low for the kernel to write at all.
   */
  lemma SelfConsistentIff(k: Kernel, width: int, height: int)
    requires width >= 1 && height >= 0
    requires Wide(k) ==> width >= 2
    ensures AlwaysSelfConsistent(k, width, height)
            <==> (width >= CausalWidth(k) || !Fires(k, width, height, 0, 0))
  {
    hide SelfConsistent, Causal, Fires;
    if width >= CausalWidth(k) || !Fires(k, width, height, 0, 0) {
      forall job: Job, s: State | IsScan(job, s, k, width, height) ensures SelfConsistent(job, s) {
        if width >= CausalWidth(k) {
          CausalIff(k, width);
          CausalScanIsSelfConsistent(job, s);
        } else {
          QuietIsOrderly(job);
          OrderlyScanIsSelfConsistent(job, s);
        }
      }
    } else {
      BadImage(k, height);
      Inconsistent(BadJob(k, height), BadState(k, height));
      assert IsScan(BadJob(k, height), BadState(k, height), k, width, height);
    }
  }

  /** The least heights at which the narrow images fail. */
  lemma FiresIff(k: Kernel, height: int)
    requires Narrow(k)
    ensures Fires(k, BadWidth(k), height, 0, 0)
            <==> height >= (if k == KAtkinson || k == KBurkes then 3 else 4)
  {
  }

  // ---- the counterexample -----------------------------------------------------------

  predicate Narrow(k: Kernel) { k == KAtkinson || Wide(k) }

  /** The largest width at which kernel `k` writes to its own pixel. */
  function BadWidth(k: Kernel): int { CausalWidth(k) - 1 }

  /**
    An image of that width and high enough for the kernel to write, whose first
    pixel is just nearer to the first of two palette colours, with all the
    difference in the first component.
   */
  ghost predicate Bad(job: Job, s: State) {
    && Fits(job, s) && s.indices == [] && job.size > 0
    && Narrow(job.kernel) && job.width == BadWidth(job.kernel) && Fires(job.kernel, job.width, job.height, 0, 0)
    && job.lookup == LkNormal && job.mask == NoMask && job.reqcolor == 2 && job.complexion == 1
    && PixelAt(job.palette, 0) == Color(0, 0, 0) && PixelAt(job.palette, 1) == Color(101, 0, 0)
    && PixelAt(s.data, 0) == Color(50, 0, 0)
  }

  function BadJob(k: Kernel, height: int): Job {
    Job(BadWidth(k), height, BadWidth(k) * height, DEPTH, [0, 0, 0, 101, 0, 0], 2, k, NoMask, LkNormal, 1)
  }

  function BadState(k: Kernel, height: int): State
    requires BadWidth(k) * height >= 0
  {
    State(seq(DEPTH * (BadWidth(k) * height), i => if i % 3 == 0 then 50 else 0), [], [])
  }

  lemma BadImage(k: Kernel, height: int)
    requires Narrow(k) && Fires(k, BadWidth(k), height, 0, 0)
    ensures BadWidth(k) * height > 0 && Bad(BadJob(k, height), BadState(k, height))
  {
    FiresIff(k, height);
  }

  /** The first pixel is answered with index 0, and then diffusion moves it nearer to the other colour. */
  lemma Inconsistent(job: Job, s: State)
    requires Bad(job, s)
    ensures !SelfConsistent(job, s)
  {
    FirstAnswer(job, s);
    FirstPixelMoves(job, s);
    FirstPixelStays(job, s, job.size);
    RecordedIndex(job, s, 0);
    var t := ScanTo(job, s, job.size);
    Closer(PixelAt(t.data, 0));
    assert !ConsistentAt(job, t, 0);
  }

  lemma Closer(p: Color)
    requires 51 <= p.c0 <= 60
    ensures Dist(p, Color(101, 0, 0), 1) < Dist(p, Color(0, 0, 0), 1)
  {
    DifferenceOfSquares(p.c0, p.c0 - 101);
  }

  lemma Nearer(pal: seq<byte>)
    requires |pal| >= 6 && PixelAt(pal, 0) == Color(0, 0, 0) && PixelAt(pal, 1) == Color(101, 0, 0)
    ensures Nearest(Color(50, 0, 0), pal, 2, 1) == 0
  {
    var p := Color(50, 0, 0);
    assert Dist(p, PixelAt(pal, 0), 1) == 2500;
    assert Dist(p, PixelAt(pal, 1), 1) == 2601;
  }

  lemma FirstAnswer(job: Job, s: State)
    requires Bad(job, s)
    ensures ScanTo(job, s, 1).indices == [0]
  {
    StepFields(job, s, 0);
    Nearer(job.palette);
  }

  /** The third tap reaches the pixel itself; no other tap does. */
  lemma SelfTapOnly(k: Kernel, i: nat)
    requires Narrow(k) && i < TapCount(k)
    ensures Target(TapAt(k, i), 0, BadWidth(k)) == 0 <==> i == 2
  {
    var w, t := BadWidth(k), TapAt(k, i);
    assert w * t.dy == if t.dy == 0 then 0 else if t.dy == 1 then w else 2 * w;
  }

  lemma SelfTapShare(k: Kernel)
    requires Narrow(k)
    ensures 1 <= Share(TapAt(k, 2), 50) <= 10
  {
  }

  lemma NoShare(t: Tap)
    ensures Share(t, 0) == 0
  {
  }

  /** A write to plane `n` of a pixel changes that plane of that pixel. */
  lemma DepositHere(data: seq<byte>, cell: nat, n: nat, amount: int)
    requires n < DEPTH && DEPTH * cell + 2 < |data|
    ensures var p := PixelAt(data, cell);
            PixelAt(Deposit(data, cell, n, amount), cell) == SetPlane(p, n, ClampByte(Plane(p, n) + amount))
  {
  }

  lemma ApplyNext(data: seq<byte>, n: nat, pos: int, width: int, k: Kernel, i: nat, error: int)
    requires i < TapCount(k)
    ensures Apply(data, n, pos, width, k, 0, error) == data
    ensures Apply(data, n, pos, width, k, i + 1, error) ==
            Deposit(Apply(data, n, pos, width, k, i, error), Target(TapAt(k, i), pos, width), n,
                Share(TapAt(k, i), error))
  {
  }

  /** Only the self tap, number `j`, changes the origin: its plane gains that tap's share. */
  lemma ApplyAtOrigin(data: seq<byte>, n: nat, width: int, k: Kernel, j: nat, error: int)
    requires n < DEPTH && 2 < |data| && j < TapCount(k)
    requires forall i: nat | i < TapCount(k) :: Target(TapAt(k, i), 0, width) == 0 <==> i == j
    ensures PixelAt(Apply(data, n, 0, width, k, TapCount(k), error), 0)
            == SetPlane(PixelAt(data, 0), n, ClampByte(Plane(PixelAt(data, 0), n) + Share(TapAt(k, j), error)))
  {
    hide Share, Target, TapAt, ClampByte, SetPlane, Plane, Deposit, PixelAt, Apply;
    var d := Apply(data, n, 0, width, k, j, error);
    ApplyNext(data, n, 0, width, k, j, error);
    ApplyElsewhere(data, n, 0, width, k, 0, j, error, 0);
    DepositHere(d, 0, n, Share(TapAt(k, j), error));
    ApplyElsewhere(data, n, 0, width, k, j + 1, TapCount(k), error, 0);
  }

  lemma FirstPixelMoves(job: Job, s: State)
    requires Bad(job, s)
    ensures 51 <= PixelAt(ScanTo(job, s, 1).data, 0).c0 <= 60
  {
    FirstAnswer(job, s);
    StepFields(job, s, 0);
    PlanesAtOrigin(job, s.data, job.depth);
  }

  lemma {:induction false} PlanesAtOrigin(job: Job, data: seq<byte>, n: nat)
    requires Narrow(job.kernel) && job.width == BadWidth(job.kernel)
    requires Fires(job.kernel, job.width, job.height, 0, 0)
    requires |job.palette| >= 6 && PixelAt(job.palette, 0) == Color(0, 0, 0)
    requires 2 < |data| && PixelAt(data, 0) == Color(50, 0, 0) && n <= DEPTH
    ensures var d := DiffusePlanes(job, data, 0, 0, 0, n);
            && d[1] == 0 && d[2] == 0
            && (if n == 0 then d[0] == 50 else 51 <= d[0] <= 60)
  {
    hide Share, Target, TapAt, Apply, Deposit;
    if n > 0 {
      PlanesAtOrigin(job, data, n - 1);
      var d := DiffusePlanes(job, data, 0, 0, 0, n - 1);
      SelfTapShare(job.kernel);
      NoShare(TapAt(job.kernel, 2));
      forall i: nat | i < TapCount(job.kernel)
        ensures Target(TapAt(job.kernel, i), 0, job.width) == 0 <==> i == 2
      {
        SelfTapOnly(job.kernel, i);
      }
      ApplyAtOrigin(d, n - 1, job.width, job.kernel, 2, Offset(job, d, 0, n - 1, 0));
    }
  }

  /** No later pixel writes to the first one. */
  lemma {:induction false} FirstPixelStays(job: Job, s: State, n: nat)
    requires Bad(job, s) && 1 <= n <= job.size
    ensures PixelAt(ScanTo(job, s, n).data, 0) == PixelAt(ScanTo(job, s, 1).data, 0)
  {
    hide ScanTo, Step, Spares, Row, Col, PixelAt, Fires;
    if n > 1 {
      FirstPixelStays(job, s, n - 1);
      LaterSparesFirst(job.kernel, job.width, job.height, n - 1);
      StepKeepsPixel(job, s, 0, n - 1);
    }
  }

  /** At the narrow width no tap reaches back. */
  lemma TapsGoOn(k: Kernel, j: nat)
    requires Narrow(k) && j < TapCount(k)
    ensures BadWidth(k) * TapAt(k, j).dy + TapAt(k, j).dx >= 0
  {
    var w, t := BadWidth(k), TapAt(k, j);
    assert w * t.dy == if t.dy == 0 then 0 else if t.dy == 1 then w else 2 * w;
  }

  lemma LaterSparesFirst(k: Kernel, width: int, height: int, i: nat)
    requires Narrow(k) && width == BadWidth(k) && i > 0
    ensures Spares(k, width, height, Col(width, i), Row(width, i), 0)
  {
    hide Row, Col, Fires, TapAt;
    assert Row(width, i) * width + Col(width, i) == i;
    forall j: nat | j < TapCount(k)
      ensures Target(TapAt(k, j), i, width) != 0
    {
      TapsGoOn(k, j);
    }
  }
}
