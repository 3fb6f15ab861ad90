/**
 k-means over real vectors: k-means++ initialisation, then at most 100 Lloyd iterations.

 `Spread(ms, v)` is the sum of squared distances of the vectors `ms` to `v`. Everything rests on
 `SpreadAroundMean`: moving a cluster's centre from its mean to `v` adds exactly
 `|ms| * DistSq(mean, v)`, so replacing centroids by means never raises the cost.
 */
module KMeans {
  type Vec = seq<real>

  datatype Item = Item(text: string, embedding: Vec)
  datatype Cluster = Cluster(centroid: Vec, members: seq<Item>)

  predicate AllDim(vs: seq<Vec>, d: nat) {
    forall i | 0 <= i < |vs| :: |vs[i]| == d
  }

  function Vecs(items: seq<Item>): (vs: seq<Vec>)
    ensures |vs| == |items| && forall i | 0 <= i < |items| :: vs[i] == items[i].embedding
  {
    seq(|items|, i requires 0 <= i < |items| => items[i].embedding)
  }

  // ---- Distance and spread --------------------------------------------------------------------

  // Products stay behind a name where only their sign matters.
  function Times(x: real, y: real): real {
    x * y
  }

  lemma SameSign(x: real, y: real)
    requires (x > 0.0 && y > 0.0) || (x < 0.0 && y < 0.0)
    ensures Times(x, y) > 0.0
  {
  }

  lemma ZeroTimes(y: real)
    ensures Times(0.0, y) == 0.0
  {
  }

  function Sq(x: real): (r: real)
    ensures r >= 0.0 && (r == 0.0 <==> x == 0.0)
  {
    hide Times;
    if x == 0.0 then ZeroTimes(x); Times(x, x) else SameSign(x, x); Times(x, x)
  }

  // Squared distance over the first `n` dimensions.
  function DistTo(a: Vec, b: Vec, n: nat): (r: real)
    requires n <= |a| == |b|
    ensures r >= 0.0
  {
    if n == 0 then 0.0
    else DistTo(a, b, n - 1) + Sq(a[n - 1] - b[n - 1])
  }

  function DistSq(a: Vec, b: Vec): real
    requires |a| == |b|
  {
    DistTo(a, b, |a|)
  }

  lemma {:induction false} DistZero(a: Vec, b: Vec, n: nat)
    requires n <= |a| == |b|
    ensures DistTo(a, b, n) == 0.0 <==> a[..n] == b[..n]
  {
    hide Sq;
    if n > 0 {
      DistZero(a, b, n - 1);
      assert a[..n] == a[..n - 1] + [a[n - 1]] && b[..n] == b[..n - 1] + [b[n - 1]];
      assert a[..n] == b[..n] <==> a[..n - 1] == b[..n - 1] && a[n - 1] == b[n - 1];
    }
  }

  lemma {:induction false} DistSymmetric(a: Vec, b: Vec, n: nat)
    requires n <= |a| == |b|
    ensures DistTo(a, b, n) == DistTo(b, a, n)
  {
    if n > 0 {
      DistSymmetric(a, b, n - 1);
    }
  }

  lemma SameVec(a: Vec, b: Vec)
    requires |a| == |b|
    ensures DistSq(a, b) == 0.0 <==> a == b
    ensures DistSq(a, b) == DistSq(b, a)
  {
    DistZero(a, b, |a|);
    DistSymmetric(a, b, |a|);
    assert a[..|a|] == a && b[..|b|] == b;
  }

  function Spread(ms: seq<Vec>, v: Vec): (r: real)
    requires AllDim(ms, |v|)
    ensures r >= 0.0
  {
    if ms == [] then 0.0
    else Spread(ms[..|ms| - 1], v) + DistSq(ms[|ms| - 1], v)
  }

  function SumAt(ms: seq<Vec>, j: nat): real
    requires forall i | 0 <= i < |ms| :: j < |ms[i]|
  {
    if ms == [] then 0.0
    else SumAt(ms[..|ms| - 1], j) + ms[|ms| - 1][j]
  }

  function Mean(ms: seq<Vec>, d: nat): (m: Vec)
    requires ms != [] && AllDim(ms, d)
    ensures |m| == d && forall j | 0 <= j < d :: m[j] == SumAt(ms, j) / |ms| as real
  {
    seq(d, j requires 0 <= j < d => SumAt(ms, j) / |ms| as real)
  }

  // The spread in one dimension, as a quadratic in the centre.
  function DimSpread(ms: seq<Vec>, j: nat, t: real): real
    requires forall i | 0 <= i < |ms| :: j < |ms[i]|
  {
    if ms == [] then 0.0
    else var x := ms[|ms| - 1][j]; DimSpread(ms[..|ms| - 1], j, t) + Sq(x - t)
  }

  function SquaresAt(ms: seq<Vec>, j: nat): real
    requires forall i | 0 <= i < |ms| :: j < |ms[i]|
  {
    if ms == [] then 0.0
    else var x := ms[|ms| - 1][j]; SquaresAt(ms[..|ms| - 1], j) + x * x
  }

  lemma {:induction false} DimQuadratic(ms: seq<Vec>, j: nat, t: real)
    requires forall i | 0 <= i < |ms| :: j < |ms[i]|
    ensures DimSpread(ms, j, t) == SquaresAt(ms, j) - 2.0 * t * SumAt(ms, j) + |ms| as real * t * t
  {
    if ms != [] {
      var rest, x := ms[..|ms| - 1], ms[|ms| - 1][j];
      DimQuadratic(rest, j, t);
      var n := |rest| as real;
      assert |ms| as real == n + 1.0;
      assert Sq(x - t) == x * x - 2.0 * t * x + t * t;
      assert 2.0 * t * (SumAt(rest, j) + x) == 2.0 * t * SumAt(rest, j) + 2.0 * t * x;
      assert (n + 1.0) * t * t == n * t * t + t * t;
    }
  }

  lemma QuadraticAroundMean(q: real, s: real, n: real, m: real, t: real)
    requires n > 0.0 && m == s / n
    ensures q - 2.0 * t * s + n * t * t == (q - 2.0 * m * s + n * m * m) + n * Sq(m - t)
  {
    assert s == n * m;
    assert 2.0 * t * s == 2.0 * n * t * m && 2.0 * m * s == 2.0 * n * m * m;
    assert Sq(m - t) == m * m - 2.0 * t * m + t * t;
    assert n * (m * m - 2.0 * t * m + t * t) == n * m * m - 2.0 * n * t * m + n * t * t;
  }

  lemma DimAroundMean(ms: seq<Vec>, j: nat, d: nat, t: real)
    requires ms != [] && AllDim(ms, d) && j < d
    ensures var m := Mean(ms, d)[j];
            DimSpread(ms, j, t) == DimSpread(ms, j, m) + |ms| as real * Sq(m - t)
  {
    hide DimSpread, SquaresAt, SumAt;
    var m := Mean(ms, d)[j];
    DimQuadratic(ms, j, t);
    DimQuadratic(ms, j, m);
    QuadraticAroundMean(SquaresAt(ms, j), SumAt(ms, j), |ms| as real, m, t);
  }

  // Sum of the one-dimensional spreads over the first `n` dimensions.
  function DimsTo(ms: seq<Vec>, v: Vec, n: nat): real
    requires AllDim(ms, |v|) && n <= |v|
  {
    if n == 0 then 0.0 else DimsTo(ms, v, n - 1) + DimSpread(ms, n - 1, v[n - 1])
  }

  lemma {:induction false} DimsToSnoc(ms: seq<Vec>, v: Vec, n: nat)
    requires ms != [] && AllDim(ms, |v|) && n <= |v|
    ensures DimsTo(ms, v, n) == DimsTo(ms[..|ms| - 1], v, n) + DistTo(ms[|ms| - 1], v, n)
  {
    if n > 0 {
      DimsToSnoc(ms, v, n - 1);
    }
  }

  lemma {:induction false} DimsToEmpty(v: Vec, n: nat)
    requires n <= |v|
    ensures DimsTo([], v, n) == 0.0
  {
    if n > 0 {
      DimsToEmpty(v, n - 1);
    }
  }

  lemma {:induction false} SpreadByDims(ms: seq<Vec>, v: Vec)
    requires AllDim(ms, |v|)
    ensures Spread(ms, v) == DimsTo(ms, v, |v|)
  {
    if ms == [] {
      DimsToEmpty(v, |v|);
    } else {
      SpreadByDims(ms[..|ms| - 1], v);
      DimsToSnoc(ms, v, |v|);
    }
  }

  lemma {:induction false} DimsAroundMean(ms: seq<Vec>, v: Vec, n: nat)
    requires ms != [] && AllDim(ms, |v|) && n <= |v|
    ensures var m := Mean(ms, |v|);
            DimsTo(ms, v, n) == DimsTo(ms, m, n) + |ms| as real * DistTo(m, v, n)
  {
    hide DimSpread, SumAt;
    if n > 0 {
      var m := Mean(ms, |v|);
      DimsAroundMean(ms, v, n - 1);
      DimAroundMean(ms, n - 1, |v|, v[n - 1]);
      var x := Sq(m[n - 1] - v[n - 1]);
      assert |ms| as real * (DistTo(m, v, n - 1) + x) == |ms| as real * DistTo(m, v, n - 1) + |ms| as real * x;
    }
  }

  /** Parallel-axis identity: the mean is the unique best centre, and any other costs `|ms| * DistSq` more. */
  lemma SpreadAroundMean(ms: seq<Vec>, v: Vec)
    requires ms != [] && AllDim(ms, |v|)
    ensures var m := Mean(ms, |v|);
            Spread(ms, v) == Spread(ms, m) + |ms| as real * DistSq(m, v)
  {
    hide DimsTo, DistTo, Spread, SumAt;
    var m := Mean(ms, |v|);
    SpreadByDims(ms, v);
    SpreadByDims(ms, m);
    DimsAroundMean(ms, v, |v|);
  }

  lemma MeanIsBest(ms: seq<Vec>, v: Vec)
    requires ms != [] && AllDim(ms, |v|)
    ensures Spread(ms, Mean(ms, |v|)) <= Spread(ms, v)
  {
    SpreadAroundMean(ms, v);
    assert |ms| as real * DistSq(Mean(ms, |v|), v) >= 0.0;
  }

  // ---- Clusterings ------------------------------------------------------------------------------

  ghost predicate Clustering(xs: seq<Vec>, a: seq<nat>, cs: seq<Vec>, d: nat) {
    && |a| == |xs| && (forall i | 0 <= i < |a| :: a[i] < |cs|)
    && AllDim(xs, d) && AllDim(cs, d)
  }

  // Items among the first `n` assigned to cluster `c`, in order.
  function Members<T>(xs: seq<T>, a: seq<nat>, c: nat, n: nat): seq<T>
    requires n <= |xs| == |a|
  {
    if n == 0 then []
    else Members(xs, a, c, n - 1) + if a[n - 1] == c then [xs[n - 1]] else []
  }

  lemma {:induction false} MembersDim(xs: seq<Vec>, a: seq<nat>, c: nat, n: nat, d: nat)
    requires n <= |xs| == |a| && AllDim(xs, d)
    ensures AllDim(Members(xs, a, c, n), d)
  {
    if n > 0 {
      MembersDim(xs, a, c, n - 1, d);
    }
  }

  lemma {:induction false} MembersOfItems(items: seq<Item>, a: seq<nat>, c: nat, n: nat)
    requires n <= |items| == |a|
    ensures Vecs(Members(items, a, c, n)) == Members(Vecs(items), a, c, n)
  {
    if n > 0 {
      MembersOfItems(items, a, c, n - 1);
    }
  }

  function Cost(xs: seq<Vec>, a: seq<nat>, cs: seq<Vec>, d: nat, n: nat): real
    requires Clustering(xs, a, cs, d) && n <= |xs|
  {
    if n == 0 then 0.0 else Cost(xs, a, cs, d, n - 1) + DistSq(xs[n - 1], cs[a[n - 1]])
  }

  function MembersSpread(xs: seq<Vec>, a: seq<nat>, c: nat, n: nat, v: Vec): real
    requires n <= |xs| == |a| && AllDim(xs, |v|)
  {
    MembersDim(xs, a, c, n, |v|);
    Spread(Members(xs, a, c, n), v)
  }

  // Cost added up cluster by cluster, over the first `k` clusters.
  function ByCluster(xs: seq<Vec>, a: seq<nat>, cs: seq<Vec>, d: nat, n: nat, k: nat): real
    requires Clustering(xs, a, cs, d) && n <= |xs| && k <= |cs|
  {
    if k == 0 then 0.0
    else ByCluster(xs, a, cs, d, n, k - 1) + MembersSpread(xs, a, k - 1, n, cs[k - 1])
  }

  lemma MembersSpreadStep(xs: seq<Vec>, a: seq<nat>, c: nat, n: nat, v: Vec)
    requires 0 < n <= |xs| == |a| && AllDim(xs, |v|)
    ensures MembersSpread(xs, a, c, n, v) ==
            MembersSpread(xs, a, c, n - 1, v) + if a[n - 1] == c then DistSq(xs[n - 1], v) else 0.0
  {
    MembersDim(xs, a, c, n - 1, |v|);
    var ms := Members(xs, a, c, n - 1);
    if a[n - 1] == c {
      assert (ms + [xs[n - 1]])[..|ms|] == ms;
    } else {
      assert ms + [] == ms;
    }
  }

  lemma {:induction false} ByClusterStep(xs: seq<Vec>, a: seq<nat>, cs: seq<Vec>, d: nat, n: nat, k: nat)
    requires Clustering(xs, a, cs, d) && 0 < n <= |xs| && k <= |cs|
    ensures ByCluster(xs, a, cs, d, n, k) ==
            ByCluster(xs, a, cs, d, n - 1, k) + if a[n - 1] < k then DistSq(xs[n - 1], cs[a[n - 1]]) else 0.0
  {
    hide DistTo, MembersSpread;
    if k > 0 {
      ByClusterStep(xs, a, cs, d, n, k - 1);
      MembersSpreadStep(xs, a, k - 1, n, cs[k - 1]);
    }
  }

  lemma {:induction false} ByClusterEmpty(xs: seq<Vec>, a: seq<nat>, cs: seq<Vec>, d: nat, k: nat)
    requires Clustering(xs, a, cs, d) && k <= |cs|
    ensures ByCluster(xs, a, cs, d, 0, k) == 0.0
  {
    if k > 0 {
      ByClusterEmpty(xs, a, cs, d, k - 1);
    }
  }

  /** Adding up item by item and cluster by cluster gives the same cost. */
  lemma {:induction false} CostByCluster(xs: seq<Vec>, a: seq<nat>, cs: seq<Vec>, d: nat, n: nat)
    requires Clustering(xs, a, cs, d) && n <= |xs|
    ensures Cost(xs, a, cs, d, n) == ByCluster(xs, a, cs, d, n, |cs|)
  {
    hide DistTo, MembersSpread;
    if n == 0 {
      ByClusterEmpty(xs, a, cs, d, |cs|);
    } else {
      CostByCluster(xs, a, cs, d, n - 1);
      ByClusterStep(xs, a, cs, d, n, |cs|);
    }
  }

  // ---- Lloyd's two half-steps ---------------------------------------------------------------------

  ghost predicate IsNearest(x: Vec, cs: seq<Vec>, c: nat)
    requires AllDim(cs, |x|)
  {
    c < |cs| && forall e | 0 <= e < |cs| :: DistSq(x, cs[c]) <= DistSq(x, cs[e])
  }

  // And the lowest-numbered of the nearest.
  ghost predicate IsFirstNearest(x: Vec, cs: seq<Vec>, c: nat)
    requires AllDim(cs, |x|)
  {
    IsNearest(x, cs, c) && forall e | 0 <= e < c :: DistSq(x, cs[c]) < DistSq(x, cs[e])
  }

  ghost predicate AllNearest(xs: seq<Vec>, a: seq<nat>, cs: seq<Vec>, d: nat)
    requires AllDim(xs, d) && AllDim(cs, d)
  {
    |a| == |xs| && forall i | 0 <= i < |xs| :: IsNearest(xs[i], cs, a[i])
  }

  /** A nearest-centroid assignment costs no more than any other assignment to the same centroids. */
  lemma {:induction false} AssignmentStep(xs: seq<Vec>, a: seq<nat>, b: seq<nat>, cs: seq<Vec>, d: nat, n: nat)
    requires Clustering(xs, a, cs, d) && Clustering(xs, b, cs, d) && AllNearest(xs, b, cs, d) && n <= |xs|
    ensures Cost(xs, b, cs, d, n) <= Cost(xs, a, cs, d, n)
  {
    if n > 0 {
      AssignmentStep(xs, a, b, cs, d, n - 1);
      assert IsNearest(xs[n - 1], cs, b[n - 1]);
    }
  }

  // `ds` holds the means of the non-empty clusters and keeps `cs` elsewhere.
  ghost predicate Recentred(xs: seq<Vec>, a: seq<nat>, cs: seq<Vec>, ds: seq<Vec>, d: nat)
    requires |a| == |xs| && AllDim(xs, d)
  {
    && |ds| == |cs|
    && forall c | 0 <= c < |cs| ::
         var ms := Members(xs, a, c, |xs|);
         MembersDim(xs, a, c, |xs|, d);
         ds[c] == if ms == [] then cs[c] else Mean(ms, d)
  }

  lemma {:induction false} ByClusterRecentred(xs: seq<Vec>, a: seq<nat>, cs: seq<Vec>, ds: seq<Vec>, d: nat, k: nat)
    requires Clustering(xs, a, cs, d) && Recentred(xs, a, cs, ds, d) && Clustering(xs, a, ds, d) && k <= |cs|
    ensures ByCluster(xs, a, ds, d, |xs|, k) <= ByCluster(xs, a, cs, d, |xs|, k)
  {
    hide DistTo, Spread, SumAt, Members;
    if k > 0 {
      ByClusterRecentred(xs, a, cs, ds, d, k - 1);
      MembersDim(xs, a, k - 1, |xs|, d);
      var ms := Members(xs, a, k - 1, |xs|);
      if ms != [] {
        MeanIsBest(ms, cs[k - 1]);
      }
    }
  }

  lemma RecentredDim(xs: seq<Vec>, a: seq<nat>, cs: seq<Vec>, ds: seq<Vec>, d: nat)
    requires Clustering(xs, a, cs, d) && Recentred(xs, a, cs, ds, d)
    ensures Clustering(xs, a, ds, d)
  {
    forall c | 0 <= c < |cs| ensures |ds[c]| == d {
      MembersDim(xs, a, c, |xs|, d);
    }
  }

  /** Replacing centroids by means, keeping those of empty clusters, never raises the cost. */
  lemma UpdateStep(xs: seq<Vec>, a: seq<nat>, cs: seq<Vec>, ds: seq<Vec>, d: nat)
    requires Clustering(xs, a, cs, d) && Recentred(xs, a, cs, ds, d)
    ensures Clustering(xs, a, ds, d)
    ensures Cost(xs, a, ds, d, |xs|) <= Cost(xs, a, cs, d, |xs|)
  {
    RecentredDim(xs, a, cs, ds, d);
    CostByCluster(xs, a, cs, d, |xs|);
    CostByCluster(xs, a, ds, d, |xs|);
    ByClusterRecentred(xs, a, cs, ds, d, |cs|);
  }

  // ---- Partition ----------------------------------------------------------------------------------

  function MembersTo<T>(xs: seq<T>, a: seq<nat>, n: nat, k: nat): multiset<T>
    requires n <= |xs| == |a|
  {
    if k == 0 then multiset{} else MembersTo(xs, a, n, k - 1) + multiset(Members(xs, a, k - 1, n))
  }

  lemma {:induction false} MembersToStep<T>(xs: seq<T>, a: seq<nat>, n: nat, k: nat)
    requires 0 < n <= |xs| == |a|
    ensures MembersTo(xs, a, n, k) ==
            MembersTo(xs, a, n - 1, k) + if a[n - 1] < k then multiset{xs[n - 1]} else multiset{}
  {
    if k > 0 {
      MembersToStep(xs, a, n, k - 1);
    }
  }

  lemma {:induction false} MembersToEmpty<T>(xs: seq<T>, a: seq<nat>, k: nat)
    requires |xs| == |a|
    ensures MembersTo(xs, a, 0, k) == multiset{}
  {
    if k > 0 {
      MembersToEmpty(xs, a, k - 1);
    }
  }

  /** The members of the `k` clusters together are the items, each exactly once. */
  lemma {:induction false} MembersPartition<T>(xs: seq<T>, a: seq<nat>, n: nat, k: nat)
    requires n <= |xs| == |a| && forall i | 0 <= i < |a| :: a[i] < k
    ensures MembersTo(xs, a, n, k) == multiset(xs[..n])
  {
    if n == 0 {
      MembersToEmpty(xs, a, k);
    } else {
      MembersPartition(xs, a, n - 1, k);
      MembersToStep(xs, a, n, k);
      assert xs[..n] == xs[..n - 1] + [xs[n - 1]];
    }
  }
}
