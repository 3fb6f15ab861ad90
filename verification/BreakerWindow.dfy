/**
 The bucketed window against an exact count of reports.

 Buckets expire `window + bucketSize` seconds after their last report. No bucket that the trip check
 reads has expired, so the totals it adds up are the true number of reports in the window.
 */
module BreakerWindow {
  import opened Breaker
  import opened BreakerRuns

  // Reports among the first `j` events with outcome `o`: in bucket `b`, and from time `lo` on.
  function CountIn(cfg: Config, es: seq<Event>, j: nat, b: int, o: Outcome): nat
    requires j <= |es|
  {
    if j == 0 then 0
    else CountIn(cfg, es, j - 1, b, o) +
         (if es[j - 1].Report? && es[j - 1].outcome == o && BucketOf(cfg, es[j - 1].now) == b then 1 else 0)
  }

  function CountSince(es: seq<Event>, j: nat, lo: int, o: Outcome): nat
    requires j <= |es|
  {
    if j == 0 then 0
    else CountSince(es, j - 1, lo, o) +
         (if es[j - 1].Report? && es[j - 1].outcome == o && es[j - 1].now >= lo then 1 else 0)
  }

  // When the last of the first `j` events that reported into bucket `b` did so.
  function LastIn(cfg: Config, es: seq<Event>, j: nat, b: int): int
    requires j <= |es|
  {
    if j == 0 then 0
    else if es[j - 1].Report? && BucketOf(cfg, es[j - 1].now) == b then es[j - 1].now
    else LastIn(cfg, es, j - 1, b)
  }

  lemma BucketBounds(cfg: Config, now: nat)
    ensures BucketOf(cfg, now) <= now < BucketOf(cfg, now) + cfg.bucketSize
  {
    var q, r := now / cfg.bucketSize, now % cfg.bucketSize;
    assert now == q * cfg.bucketSize + r;
  }

  // A bucket boundary separates times exactly as it separates their buckets.
  lemma BucketVsBoundary(cfg: Config, now: nat, q: int)
    ensures now >= q * cfg.bucketSize <==> BucketOf(cfg, now) >= q * cfg.bucketSize
    ensures BucketOf(cfg, now) == q * cfg.bucketSize <==> q * cfg.bucketSize <= now < (q + 1) * cfg.bucketSize
  {
    BucketBounds(cfg, now);
    var p := now / cfg.bucketSize;
    var size := cfg.bucketSize;
    if p < q {
      MulMonotone(p + 1, q, size);
    } else {
      MulMonotone(q, p, size);
      if p > q { MulMonotone(q + 1, p, size); }
    }
  }

  lemma MulMonotone(a: int, b: int, size: nat)
    requires a <= b
    ensures a * size <= b * size
  {
  }

  // ---- What a bucket key holds --------------------------------------------------------------------

  ghost predicate Exact(cfg: Config, es: seq<Event>, j: nat, win: map<int, Bucket>)
    requires j <= |es|
  {
    forall b: int ::
      && (b in win ==> && win[b].ok == CountIn(cfg, es, j, b, Success)
                       && win[b].fail == CountIn(cfg, es, j, b, Failure)
                       && win[b].expireAt == LastIn(cfg, es, j, b) + cfg.window + cfg.bucketSize
                       && LastIn(cfg, es, j, b) >= b)
      && (b !in win ==> CountIn(cfg, es, j, b, Success) == CountIn(cfg, es, j, b, Failure) == 0)
  }

  lemma {:induction false} BucketsExact(cfg: Config, ss: seq<System>, es: seq<Event>, j: nat)
    requires IsRun(cfg, ss, es) && ss[0] == INITIAL && j < |ss|
    ensures Exact(cfg, es, j, ss[j].store.win)
  {
    if j > 0 {
      BucketsExact(cfg, ss, es, j - 1);
      var e := es[j - 1];
      assert ss[j] == Next(cfg, ss[j - 1], e);
      if e.Report? {
        BucketBounds(cfg, e.now);
        assert ss[j].store.win == Recorded(cfg, ss[j - 1].store.win, e.now, e.outcome);
      }
    }
  }

  // A bucket inside the window is still alive when the trip check reads it.
  lemma NotExpired(cfg: Config, now: nat, i: nat)
    requires i < WindowBuckets(cfg)
    ensures now < BucketOf(cfg, now) - i * cfg.bucketSize + cfg.window + cfg.bucketSize
  {
    BucketBounds(cfg, now);
    var n := WindowBuckets(cfg);
    MulMonotone(i + 1, n, cfg.bucketSize);
    assert n * cfg.bucketSize <= cfg.window;
  }

  // ---- The totals ----------------------------------------------------------------------------------

  // Moving the cut-off back by one bucket adds exactly that bucket.
  lemma {:induction false} CountSinceStep(cfg: Config, es: seq<Event>, j: nat, q: int, o: Outcome)
    requires j <= |es|
    ensures CountSince(es, j, q * cfg.bucketSize, o) ==
            CountSince(es, j, (q + 1) * cfg.bucketSize, o) + CountIn(cfg, es, j, q * cfg.bucketSize, o)
  {
    if j > 0 {
      CountSinceStep(cfg, es, j - 1, q, o);
      BucketVsBoundary(cfg, es[j - 1].now, q);
      MulMonotone(q, q + 1, cfg.bucketSize);
    }
  }

  lemma {:induction false} NothingLater(es: seq<Event>, j: nat, lo: int, o: Outcome)
    requires j <= |es| && forall i | 0 <= i < j :: es[i].now < lo
    ensures CountSince(es, j, lo, o) == 0
  {
    if j > 0 {
      NothingLater(es, j - 1, lo, o);
    }
  }

  // The cut-off when `n` buckets are added up: the start of the oldest one.
  function Cutoff(cfg: Config, now: nat, n: nat): int {
    (now / cfg.bucketSize - (n - 1)) * cfg.bucketSize
  }

  lemma CutoffIsBucket(cfg: Config, now: nat, n: nat)
    ensures Cutoff(cfg, now, n) == BucketOf(cfg, now) - (n - 1) * cfg.bucketSize
  {
  }

  lemma ReadExact(cfg: Config, es: seq<Event>, j: nat, win: map<int, Bucket>, now: nat, n: nat)
    requires j <= |es| && Exact(cfg, es, j, win) && 1 <= n <= WindowBuckets(cfg)
    ensures var b := BucketOf(cfg, now) - (n - 1) * cfg.bucketSize;
            && b == Cutoff(cfg, now, n)
            && LiveOk(win, b, now) == CountIn(cfg, es, j, b, Success)
            && LiveFail(win, b, now) == CountIn(cfg, es, j, b, Failure)
  {
    NotExpired(cfg, now, n - 1);
    CutoffIsBucket(cfg, now, n);
  }

  lemma {:induction false} TotalsExact(cfg: Config, es: seq<Event>, j: nat, win: map<int, Bucket>, now: nat, n: nat)
    requires j <= |es| && Exact(cfg, es, j, win)
    requires forall i | 0 <= i < j :: es[i].now <= now
    requires n <= WindowBuckets(cfg)
    ensures TotalOk(cfg, win, now, n) == CountSince(es, j, Cutoff(cfg, now, n), Success)
    ensures TotalFail(cfg, win, now, n) == CountSince(es, j, Cutoff(cfg, now, n), Failure)
  {
    if n == 0 {
      BucketBounds(cfg, now);
      CutoffIsBucket(cfg, now, 0);
      NothingLater(es, j, Cutoff(cfg, now, 0), Success);
      NothingLater(es, j, Cutoff(cfg, now, 0), Failure);
    } else {
      TotalsExact(cfg, es, j, win, now, n - 1);
      ReadExact(cfg, es, j, win, now, n);
      var q := now / cfg.bucketSize - (n - 1);
      CountSinceStep(cfg, es, j, q, Success);
      CountSinceStep(cfg, es, j, q, Failure);
    }
  }

  /** A closed breaker trips on a failure report exactly when the true number of reports since the start of
      the oldest bucket in the window reaches the minimum and the true failure ratio reaches the threshold.
      A window shorter than one bucket covers nothing and never trips. */
  lemma TripExactly(cfg: Config, ss: seq<System>, es: seq<Event>, k: nat)
    requires IsRun(cfg, ss, es) && ss[0] == INITIAL && k < |es|
    requires Ph(ss[k]).Closed? && es[k].Report?
    ensures var n := cfg.window / cfg.bucketSize;
            var lo := es[k].now / cfg.bucketSize * cfg.bucketSize - (n - 1) * cfg.bucketSize;
            var ok := CountSince(es, k + 1, lo, Success);
            var fail := CountSince(es, k + 1, lo, Failure);
            Ph(ss[k + 1]).Open? <==>
              && es[k].outcome == Failure && n >= 1
              && ok + fail >= cfg.minRequests && ok + fail > 0
              && fail as real / (ok + fail) as real >= cfg.threshold
  {
    hide TotalOk, TotalFail, CountSince;
    var now, n := es[k].now, WindowBuckets(cfg);
    var lo := BucketOf(cfg, now) - (n - 1) * cfg.bucketSize;
    assert ss[k + 1] == Next(cfg, ss[k], es[k]);
    BucketsExact(cfg, ss, es, k + 1);
    forall i | 0 <= i < k + 1 ensures es[i].now <= now {
      ClockMonotone(cfg, ss, es, i, k);
    }
    TotalsExact(cfg, es, k + 1, ss[k + 1].store.win, now, n);
    CutoffIsBucket(cfg, now, n);
    if n == 0 {
      BucketBounds(cfg, now);
      NothingLater(es, k + 1, lo, Success);
      NothingLater(es, k + 1, lo, Failure);
    }
  }
}
