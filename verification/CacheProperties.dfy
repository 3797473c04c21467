/** The 15-bit lookup cache over a whole scan and over repeated scans. */
module CacheProperties {
  import opened CArithmetic
  import opened Colors
  import opened Diffusion
  import opened Lookup
  import opened Scan
  import opened ScanProperties

  /** A scan with the cached lookup whose cache is sound for the scan's palette. */
  ghost predicate SoundStart(job: Job, s: State) {
    && Fits(job, s) && s.indices == [] && job.lookup == LkFast
    && CacheSound(s.cache, job.palette, job.reqcolor, job.complexion)
  }

  /** `lo` is kept by `hi`: entries that were set are unchanged. */
  ghost predicate Extends(hi: seq<ushort>, lo: seq<ushort>) {
    && |hi| == |lo|
    && forall h: nat | h < |lo| && lo[h] != 0 :: hi[h] == lo[h]
  }

  lemma ExtendsTransitive(a: seq<ushort>, b: seq<ushort>, c: seq<ushort>)
    requires Extends(a, b) && Extends(b, c)
    ensures Extends(a, c)
  {
    forall h: nat | h < |c| && c[h] != 0
      ensures a[h] == c[h]
    {
      assert b[h] == c[h];
    }
  }

  /** The zeroed table is sound for every palette. */
  lemma ZeroCacheSound(cache: seq<ushort>, pal: seq<byte>, n: nat, complexion: int)
    requires 0 < n && DEPTH * n <= |pal| && |cache| == BUCKETS
    requires forall h: nat | h < BUCKETS :: cache[h] == 0
    ensures CacheSound(cache, pal, n, complexion)
  {
  }

  /** Soundness is an invariant of the scan. */
  lemma {:induction false} CacheStaysSound(job: Job, s: State, n: nat)
    requires SoundStart(job, s) && n <= job.size
    ensures CacheSound(ScanTo(job, s, n).cache, job.palette, job.reqcolor, job.complexion)
  {
    hide Step, Nearest, CacheSound, Looked, Hash, Row, Col, FastCache, FastIndex;
    if n > 0 {
      CacheStaysSound(job, s, n - 1);
      StepFields(job, s, n - 1);
      FastLookupKeepsCacheSound(Looked(job, s, n - 1), job.palette, job.reqcolor,
                                ScanTo(job, s, n - 1).cache, job.complexion);
    }
  }

  /** A scan without the cached lookup leaves the table alone. */
  lemma {:induction false} CacheUntouched(job: Job, s: State, n: nat)
    requires Fits(job, s) && s.indices == [] && job.lookup != LkFast && n <= job.size
    ensures ScanTo(job, s, n).cache == s.cache
  {
    hide Step, Looked, Answer, DiffusePlanes, Row, Col;
    if n > 0 {
      CacheUntouched(job, s, n - 1);
      StepFields(job, s, n - 1);
    }
  }

  /** No scan, whatever its lookup, leaves an entry beyond the palette. */
  lemma EntriesInRange(job: Job, s: State)
    requires Fits(job, s) && s.indices == [] && |s.cache| == BUCKETS
    requires forall h: nat | h < BUCKETS :: s.cache[h] <= job.reqcolor
    ensures var cache := ScanTo(job, s, job.size).cache;
            |cache| == BUCKETS && forall h: nat | h < BUCKETS :: cache[h] <= job.reqcolor
  {
    hide ScanTo, Step;
    if job.lookup != LkFast {
      CacheUntouched(job, s, job.size);
    }
  }

  /** The step at pixel `i` leaves its answer in the bucket it looked up, and keeps the other entries. */
  lemma CacheStep(job: Job, s: State, i: nat)
    requires Fits(job, s) && s.indices == [] && job.lookup == LkFast && i < job.size
    ensures var t, u := ScanTo(job, s, i), ScanTo(job, s, i + 1);
            && u.cache[Hash(Looked(job, s, i))] == u.indices[i] + 1
            && Extends(u.cache, t.cache)
            && (t.cache[Hash(Looked(job, s, i))] != 0 ==>
                  u.indices[i] == t.cache[Hash(Looked(job, s, i))] - 1)
  {
    StepFields(job, s, i);
  }

  /** Entries are never changed once set. */
  lemma {:induction false} CacheIsMonotone(job: Job, s: State, m: nat, n: nat)
    requires Fits(job, s) && s.indices == [] && job.lookup == LkFast && m <= n <= job.size
    ensures Extends(ScanTo(job, s, n).cache, ScanTo(job, s, m).cache)
    decreases n
  {
    hide ScanTo, Step, Nearest, Looked, Hash, Row, Col;
    if m < n {
      CacheIsMonotone(job, s, m, n - 1);
      CacheStep(job, s, n - 1);
      ExtendsTransitive(ScanTo(job, s, n).cache, ScanTo(job, s, n - 1).cache, ScanTo(job, s, m).cache);
    }
  }

  /** In the end every looked-up bucket still holds the index recorded for its pixel. */
  lemma FinalCacheHasAnswer(job: Job, s: State, i: nat)
    requires Fits(job, s) && s.indices == [] && job.lookup == LkFast && i < job.size
    ensures var t := ScanTo(job, s, job.size);
            t.cache[Hash(Looked(job, s, i))] == t.indices[i] + 1
  {
    CacheStep(job, s, i);
    CacheIsMonotone(job, s, i + 1, job.size);
    RecordedIndex(job, s, i);
    var u := ScanTo(job, s, i + 1);
    assert u.cache[Hash(Looked(job, s, i))] != 0 by {
      assert u.indices[i] == Answer(job, Looked(job, s, i), ScanTo(job, s, i).cache) by {
        StepFields(job, s, i);
      }
    }
  }

  /**
    Pixels whose looked-up colours share a bucket always get the same index,
    even while diffusion rewrites the buffer between them.
   */
  lemma SameBucketSameIndex(job: Job, s: State, i: nat, j: nat)
    requires Fits(job, s) && s.indices == [] && job.lookup == LkFast
    requires i < job.size && j < job.size && Hash(Looked(job, s, i)) == Hash(Looked(job, s, j))
    ensures ScanTo(job, s, job.size).indices[i] == ScanTo(job, s, job.size).indices[j]
  {
    FinalCacheHasAnswer(job, s, i);
    FinalCacheHasAnswer(job, s, j);
  }

  /** Every answer of a soundly started scan is the first nearest index of a colour in the same bucket. */
  lemma AnswersAreNearby(job: Job, s: State, i: nat)
    requires SoundStart(job, s) && i < job.size
    ensures var index := ScanTo(job, s, job.size).indices[i];
            && 0 <= index < job.reqcolor
            && exists q ::
                 && Hash(q) == Hash(Looked(job, s, i))
                 && index == Nearest(q, job.palette, job.reqcolor, job.complexion)
  {
    CacheStaysSound(job, s, i);
    RecordedAnswer(job, s, i);
    FastLookupKeepsCacheSound(Looked(job, s, i), job.palette, job.reqcolor, ScanTo(job, s, i).cache, job.complexion);
  }

  // ---- repeated scans ------------------------------------------------------------------

  /** One call with its pixels, size, kernel and mask; palette, complexion and lookup are those of a job. */
  datatype Call = Call(width: int, height: int, data: seq<byte>, kernel: Kernel, mask: Mask)

  /** The scan of a call. */
  function JobOf(job: Job, c: Call): Job {
    job.(width := c.width, height := c.height, size := c.width * c.height, kernel := c.kernel, mask := c.mask)
  }

  ghost predicate Callable(job: Job, c: Call) {
    JobOf(job, c).Valid() && |c.data| == DEPTH * (c.width * c.height)
  }

  /** The cache left behind by one call. */
  ghost function CacheAfterCall(job: Job, c: Call, cache: seq<ushort>): (r: seq<ushort>)
    requires job.lookup == LkFast && Callable(job, c) && CacheInRange(job, cache)
    ensures CacheInRange(job, r)
  {
    var j := JobOf(job, c);
    ScanTo(j, State(c.data, cache, []), j.size).cache
  }

  /** One call keeps a sound cache sound and its entries unchanged. */
  lemma CallKeepsCache(job: Job, c: Call, cache: seq<ushort>)
    requires job.Valid() && job.lookup == LkFast && Callable(job, c) && CacheInRange(job, cache)
    requires CacheSound(cache, job.palette, job.reqcolor, job.complexion)
    ensures CacheSound(CacheAfterCall(job, c, cache), job.palette, job.reqcolor, job.complexion)
    ensures Extends(CacheAfterCall(job, c, cache), cache)
  {
    hide Step, CacheSound, Nearest;
    var j := JobOf(job, c);
    var s := State(c.data, cache, []);
    CacheStaysSound(j, s, j.size);
    CacheIsMonotone(j, s, 0, j.size);
  }

  /** The cache left behind by the calls, each of which starts from the cache of the one before. */
  ghost function CacheAfterCalls(job: Job, calls: seq<Call>, cache: seq<ushort>): (r: seq<ushort>)
    requires job.lookup == LkFast && CacheInRange(job, cache)
    requires forall c <- calls :: Callable(job, c)
    ensures CacheInRange(job, r)
  {
    if calls == [] then cache else
    CacheAfterCall(job, calls[|calls| - 1], CacheAfterCalls(job, calls[..|calls| - 1], cache))
  }

  /**
    From a zeroed table, after any number of calls with one palette and
    complexion, whatever their sizes, kernels and masks, every non-zero entry is
    still sound, and no call changed an entry set before it.
   */
  lemma {:induction false} CacheOverCalls(job: Job, calls: seq<Call>, cache: seq<ushort>, m: nat)
    requires job.lookup == LkFast && job.Valid() && |cache| == BUCKETS
    requires forall h: nat | h < BUCKETS :: cache[h] == 0
    requires forall c <- calls :: Callable(job, c)
    requires m <= |calls|
    ensures CacheSound(CacheAfterCalls(job, calls, cache), job.palette, job.reqcolor, job.complexion)
    ensures Extends(CacheAfterCalls(job, calls, cache), CacheAfterCalls(job, calls[..m], cache))
  {
    hide CacheAfterCall, Nearest, CacheSound;
    ZeroCacheSound(cache, job.palette, job.reqcolor, job.complexion);
    if m == |calls| {
      assert calls[..m] == calls;
    }
    if calls != [] {
      var front, last := calls[..|calls| - 1], calls[|calls| - 1];
      var k := if m == |calls| then m - 1 else m;
      CacheOverCalls(job, front, cache, k);
      assert front[..k] == calls[..k];
      var before := CacheAfterCalls(job, front, cache);
      assert last in calls;
      CallKeepsCache(job, last, before);
      if m < |calls| {
        ExtendsTransitive(CacheAfterCalls(job, calls, cache), before, CacheAfterCalls(job, calls[..m], cache));
      }
    }
  }

  /** What a call starts from. */
  function StartOf(c: Call, before: seq<ushort>): State { State(c.data, before, []) }

  lemma CallFits(job: Job, c: Call, before: seq<ushort>)
    requires job.lookup == LkFast && Callable(job, c) && CacheInRange(job, before)
    ensures Fits(JobOf(job, c), StartOf(c, before))
  {
  }

  /** The index that a call records for pixel `i`. */
  ghost function IndexIn(job: Job, c: Call, before: seq<ushort>, i: nat): int
    requires job.lookup == LkFast && Callable(job, c) && CacheInRange(job, before) && i < JobOf(job, c).size
  {
    CallFits(job, c, before);
    ScanTo(JobOf(job, c), StartOf(c, before), JobOf(job, c).size).indices[i]
  }

  /** The bucket that a call looks up for pixel `i`. */
  ghost function BucketIn(job: Job, c: Call, before: seq<ushort>, i: nat): (h: nat)
    requires job.lookup == LkFast && Callable(job, c) && CacheInRange(job, before) && i < JobOf(job, c).size
    ensures h < BUCKETS
  {
    CallFits(job, c, before);
    Hash(Looked(JobOf(job, c), StartOf(c, before), i))
  }

  /** After a call the bucket of pixel `i` holds the index recorded for it. */
  lemma CallLeavesAnswer(job: Job, c: Call, before: seq<ushort>, i: nat)
    requires job.lookup == LkFast && Callable(job, c) && CacheInRange(job, before) && i < JobOf(job, c).size
    ensures |CacheAfterCall(job, c, before)| == BUCKETS
    ensures CacheAfterCall(job, c, before)[BucketIn(job, c, before, i)] == IndexIn(job, c, before, i) + 1 > 0
  {
    hide Step, Looked, Hash, Callable, ScanTo, Answer;
    CallFits(job, c, before);
    RecordedAnswer(JobOf(job, c), StartOf(c, before), i);
    FinalCacheHasAnswer(JobOf(job, c), StartOf(c, before), i);
  }

  /**
    Pixels whose looked-up colours share a bucket get the same index, in one call
    or in two calls that share the table, with any calls before and between them.
   */
  lemma SameBucketAcrossCalls(job: Job, calls: seq<Call>, cache: seq<ushort>, a: nat, i: nat, b: nat, k: nat)
    requires job.lookup == LkFast && job.Valid() && |cache| == BUCKETS
    requires forall h: nat | h < BUCKETS :: cache[h] == 0
    requires forall c <- calls :: Callable(job, c)
    requires a <= b < |calls| && i < JobOf(job, calls[a]).size && k < JobOf(job, calls[b]).size
    requires BucketIn(job, calls[a], CacheAfterCalls(job, calls[..a], cache), i)
             == BucketIn(job, calls[b], CacheAfterCalls(job, calls[..b], cache), k)
    ensures IndexIn(job, calls[a], CacheAfterCalls(job, calls[..a], cache), i)
            == IndexIn(job, calls[b], CacheAfterCalls(job, calls[..b], cache), k)
  {
    hide BucketIn, IndexIn, CacheAfterCall, CacheAfterCalls, Callable, CacheSound;
    CallLeavesAnswer(job, calls[a], CacheAfterCalls(job, calls[..a], cache), i);
    CallLeavesAnswer(job, calls[b], CacheAfterCalls(job, calls[..b], cache), k);
    LastCall(job, calls, cache, a);
    LastCall(job, calls, cache, b);
    var later := calls[..b + 1];
    CacheOverCalls(job, later, cache, a + 1);
    assert later[..a + 1] == calls[..a + 1];
    var h := BucketIn(job, calls[a], CacheAfterCalls(job, calls[..a], cache), i);
    assert CacheAfterCalls(job, later, cache)[h] == CacheAfterCalls(job, calls[..a + 1], cache)[h];
  }

  lemma LastCall(job: Job, calls: seq<Call>, cache: seq<ushort>, a: nat)
    requires job.lookup == LkFast && CacheInRange(job, cache) && a < |calls|
    requires forall c <- calls :: Callable(job, c)
    ensures CacheAfterCalls(job, calls[..a + 1], cache)
            == CacheAfterCall(job, calls[a], CacheAfterCalls(job, calls[..a], cache))
  {
    hide CacheAfterCall, Callable;
    assert calls[..a + 1][..a] == calls[..a];
  }
}
