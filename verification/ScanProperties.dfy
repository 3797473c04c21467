/** What holds of every raster scan: causality, self-consistency, and the cache. */
module ScanProperties {
  import opened CArithmetic
  import opened Colors
  import opened Diffusion
  import opened Lookup
  import opened Scan

  // ---- later pixels do not disturb earlier ones -------------------------------------

  /** The colour that is looked up for pixel `i`. */
  function Looked(job: Job, s: State, i: nat): Color
    requires Fits(job, s) && s.indices == [] && i < job.size
  {
    Raster(i, job.width, job.height);
    Probe(job, PixelAt(ScanTo(job, s, i).data, i), Col(job.width, i), Row(job.width, i))
  }

  /** One step of the scan, field by field. */
  lemma StepFields(job: Job, s: State, i: nat)
    requires Fits(job, s) && s.indices == [] && i < job.size
    ensures var t, u := ScanTo(job, s, i), ScanTo(job, s, i + 1);
            && u.indices == t.indices + [Answer(job, Looked(job, s, i), t.cache)]
            && u.cache == CacheAfter(job, Looked(job, s, i), t.cache)
            && u.data == DiffusePlanes(job, t.data, Col(job.width, i), Row(job.width, i), u.indices[i], job.depth)
  {
    Raster(i, job.width, job.height);
  }

  lemma PrefixTransitive(u: seq<int>, t: seq<int>, p: seq<int>)
    requires p <= t <= u
    ensures p <= u
  {
  }

  /** Recorded indices are never revised. */
  lemma {:induction false} IndicesPrefix(job: Job, s: State, m: nat, n: nat)
    requires Fits(job, s) && s.indices == [] && m <= n <= job.size
    ensures ScanTo(job, s, m).indices <= ScanTo(job, s, n).indices
    decreases n
  {
    hide ScanTo, Step, Answer, CacheAfter, DiffusePlanes, Looked, Row, Col;
    if m < n {
      IndicesPrefix(job, s, m, n - 1);
      StepFields(job, s, n - 1);
      PrefixTransitive(ScanTo(job, s, n).indices, ScanTo(job, s, n - 1).indices, ScanTo(job, s, m).indices);
    }
  }

  lemma DepositElsewhere(data: seq<byte>, cell: int, n: nat, amount: int, q: nat)
    requires n < DEPTH && cell != q && DEPTH * q + 2 < |data|
    ensures PixelAt(Deposit(data, cell, n, amount), q) == PixelAt(data, q)
  {
  }

  lemma {:induction false} ApplyElsewhere(data: seq<byte>, n: nat, pos: int, width: int, k: Kernel,
                                          from: nat, i: nat, error: int, q: nat)
    requires n < DEPTH && from <= i <= TapCount(k) && DEPTH * q + 2 < |data|
    requires forall j: nat | from <= j < i :: Target(TapAt(k, j), pos, width) != q
    ensures PixelAt(Apply(data, n, pos, width, k, i, error), q)
            == PixelAt(Apply(data, n, pos, width, k, from, error), q)
    decreases i
  {
    hide Share, TapAt, PixelAt, Deposit, Target;
    if from < i {
      ApplyElsewhere(data, n, pos, width, k, from, i - 1, error, q);
      var t := TapAt(k, i - 1);
      DepositElsewhere(Apply(data, n, pos, width, k, i - 1, error), Target(t, pos, width), n, Share(t, error), q);
    }
  }

  /** No write of the kernel at (x, y) lands on pixel `q`. */
  ghost predicate Spares(k: Kernel, width: int, height: int, x: int, y: int, q: int) {
    Fires(k, width, height, x, y) ==>
      forall j: nat | j < TapCount(k) :: Target(TapAt(k, j), y * width + x, width) != q
  }

  lemma {:induction false} PlanesElsewhere(job: Job, data: seq<byte>, x: int, y: int, index: nat, n: nat, q: nat)
    requires n <= DEPTH && 0 <= y * job.width + x && DEPTH * (y * job.width + x) + 2 < |data|
    requires DEPTH * index + 2 < |job.palette| && DEPTH * q + 2 < |data|
    requires Spares(job.kernel, job.width, job.height, x, y, q)
    ensures PixelAt(DiffusePlanes(job, data, x, y, index, n), q) == PixelAt(data, q)
  {
    if n > 0 {
      PlanesElsewhere(job, data, x, y, index, n - 1, q);
      var pos := y * job.width + x;
      var d := DiffusePlanes(job, data, x, y, index, n - 1);
      var k := job.kernel;
      if Fires(k, job.width, job.height, x, y) {
        ApplyElsewhere(d, n - 1, pos, job.width, k, 0, TapCount(k), Offset(job, d, pos, n - 1, index), q);
      }
    }
  }

  lemma StepKeepsPixel(job: Job, s: State, m: nat, i: nat)
    requires Fits(job, s) && s.indices == [] && m < job.size && i < job.size
    requires job.width > 0 && Spares(job.kernel, job.width, job.height, Col(job.width, i), Row(job.width, i), m)
    ensures PixelAt(ScanTo(job, s, i + 1).data, m) == PixelAt(ScanTo(job, s, i).data, m)
  {
    StepFields(job, s, i);
    var index := ScanTo(job, s, i + 1).indices[i];
    PlanesElsewhere(job, ScanTo(job, s, i).data, Col(job.width, i), Row(job.width, i), index, job.depth, m);
  }

  /** No pixel writes to itself or to a pixel before it. */
  ghost predicate Orderly(job: Job) {
    forall m: nat, i: nat | m <= i < job.size :: SparesAt(job, i, m)
  }

  ghost predicate SparesAt(job: Job, i: nat, m: nat) {
    job.width > 0 && Spares(job.kernel, job.width, job.height, Col(job.width, i), Row(job.width, i), m)
  }

  lemma CausalIsOrderly(job: Job)
    requires job.Valid() && Causal(job.kernel, job.width)
    ensures Orderly(job)
  {
    hide Row, Col, Fires, TapAt, Target;
    forall m: nat, i: nat | m <= i < job.size ensures SparesAt(job, i, m) {
      Raster(i, job.width, job.height);
    }
  }

  /** A kernel that does not fire at the first pixel of an image fires nowhere in it. */
  lemma QuietIsOrderly(job: Job)
    requires job.Valid() && !Fires(job.kernel, job.width, job.height, 0, 0)
    ensures Orderly(job)
  {
    hide Row, Col, TapAt, Target, Fires;
    forall m: nat, i: nat | m <= i < job.size ensures SparesAt(job, i, m) {
      Raster(i, job.width, job.height);
      FiresFirst(job.kernel, job.width, job.height, Col(job.width, i), Row(job.width, i));
    }
  }

  lemma FiresFirst(k: Kernel, width: int, height: int, x: int, y: int)
    requires 0 <= x < width && 0 <= y
    ensures Fires(k, width, height, x, y) ==> Fires(k, width, height, 0, 0)
  {
    assert 0 <= y * width;
  }

  /** In an orderly scan a pixel is final from the moment the scan reaches it. */
  lemma {:induction false} PixelIsFinal(job: Job, s: State, m: nat, n: nat)
    requires Fits(job, s) && s.indices == [] && m <= n <= job.size && m < job.size
    requires Orderly(job)
    ensures PixelAt(ScanTo(job, s, n).data, m) == PixelAt(ScanTo(job, s, m).data, m)
    decreases n
  {
    hide ScanTo, Step, PixelAt, Spares, Row, Col;
    if m < n {
      PixelIsFinal(job, s, m, n - 1);
      assert SparesAt(job, n - 1, m);
      StepKeepsPixel(job, s, m, n - 1);
    }
  }

  lemma IndexInPrefix(p: seq<int>, u: seq<int>, i: nat)
    requires p <= u && i < |p|
    ensures u[i] == p[i]
  {
  }

  /** The index recorded at pixel `i` is the one the scan ends with. */
  lemma RecordedIndex(job: Job, s: State, i: nat)
    requires Fits(job, s) && s.indices == [] && i < job.size
    ensures ScanTo(job, s, job.size).indices[i] == ScanTo(job, s, i + 1).indices[i]
  {
    IndicesPrefix(job, s, i + 1, job.size);
    IndexInPrefix(ScanTo(job, s, i + 1).indices, ScanTo(job, s, job.size).indices, i);
  }

  /** The palette index that pixel `i` is drawn with. */
  function IndexOf(job: Job, s: State, i: nat): (index: nat)
    requires Fits(job, s) && s.indices == [] && i < job.size
    ensures 3 * index + 2 < |job.palette|
  {
    StepFields(job, s, i);
    ScanTo(job, s, i + 1).indices[i]
  }

  /** The index recorded for pixel `i` answers the colour looked up for it. */
  lemma RecordedAnswer(job: Job, s: State, i: nat)
    requires Fits(job, s) && s.indices == [] && i < job.size
    ensures ScanTo(job, s, job.size).indices[i] == Answer(job, Looked(job, s, i), ScanTo(job, s, i).cache)
  {
    RecordedIndex(job, s, i);
    StepFields(job, s, i);
  }

  // ---- self-consistency ----------------------------------------------------------------

  /** The index recorded for `pos` is the first nearest one to what the buffer holds there. */
  ghost predicate ConsistentAt(job: Job, t: State, pos: nat)
    requires Fits(job, t) && pos < |t.indices|
  {
    Raster(pos, job.width, job.height);
    FirstNearest(Probe(job, PixelAt(t.data, pos), Col(job.width, pos), Row(job.width, pos)),
                 job.palette, job.reqcolor, job.complexion, t.indices[pos])
  }

  /** Every index agrees with the buffer as the scan leaves it. */
  ghost predicate SelfConsistent(job: Job, s: State)
    requires Fits(job, s) && s.indices == []
  {
    forall pos: nat | pos < job.size :: ConsistentAt(job, ScanTo(job, s, job.size), pos)
  }

  lemma OrderlyScanIsSelfConsistent(job: Job, s: State)
    requires Fits(job, s) && s.indices == [] && job.lookup == LkNormal && Orderly(job)
    ensures SelfConsistent(job, s)
  {
    forall pos: nat | pos < job.size
      ensures ConsistentAt(job, ScanTo(job, s, job.size), pos)
    {
      Raster(pos, job.width, job.height);
      PixelIsFinal(job, s, pos, job.size);
      RecordedAnswer(job, s, pos);
    }
  }

  lemma CausalScanIsSelfConsistent(job: Job, s: State)
    requires Fits(job, s) && s.indices == [] && job.lookup == LkNormal
    requires Causal(job.kernel, job.width)
    ensures SelfConsistent(job, s)
  {
    hide Causal, Orderly, SelfConsistent;
    CausalIsOrderly(job);
    OrderlyScanIsSelfConsistent(job, s);
  }
}
