/**
 The clustering procedure itself, over in-place arrays of centroids and assignments.

 The random generator is a parameter: `first` is the item drawn for the first centroid and `draws[c]`,
 in [0, 1), the number drawn for centroid `c`.
 */
module KMeansCluster {
  import opened KMeans

  const MAX_ITERATIONS := 100

  method EuclidSq(a: Vec, b: Vec) returns (sum: real)
    requires |a| == |b|
    ensures sum == DistSq(a, b)
  {
    sum := 0.0;
    for i := 0 to |a|
      invariant sum == DistTo(a, b, i)
    {
      var d := a[i] - b[i];
      sum := sum + d * d;
    }
  }

  // ---- Initialisation -----------------------------------------------------------------------------

  ghost predicate IsMinDist(x: Vec, cs: seq<Vec>, m: real)
    requires AllDim(cs, |x|)
  {
    && (forall c | 0 <= c < |cs| :: m <= DistSq(x, cs[c]))
    && exists c :: 0 <= c < |cs| && m == DistSq(x, cs[c])
  }

  method MinDist(x: Vec, cs: seq<Vec>) returns (m: real)
    requires cs != [] && AllDim(cs, |x|)
    ensures IsMinDist(x, cs, m)
    ensures m >= 0.0 && (m == 0.0 <==> x in cs)
  {
    hide DistTo;
    m := EuclidSq(x, cs[0]);
    for c := 1 to |cs|
      invariant IsMinDist(x, cs[..c], m)
    {
      var d := EuclidSq(x, cs[c]);
      ghost var best :| 0 <= best < c && m == DistSq(x, cs[..c][best]);
      assert cs[..c][best] == cs[best] && cs[..c + 1][best] == cs[best] && cs[..c + 1][c] == cs[c];
      forall e | 0 <= e < c ensures m <= DistSq(x, cs[e]) {
        assert cs[..c][e] == cs[e];
      }
      if d < m {
        m := d;
      }
    }
    assert cs[..|cs|] == cs;
    forall c | 0 <= c < |cs| ensures DistSq(x, cs[c]) == 0.0 <==> x == cs[c] {
      SameVec(x, cs[c]);
    }
  }

  ghost predicate Spreads(xs: seq<Vec>, cs: seq<Vec>, c: nat)
    requires c < |cs|
  {
    cs[c] !in cs[..c] || forall i | 0 <= i < |xs| :: xs[i] in cs[..c]
  }

  function PrefixSum(ds: seq<real>, n: nat): real
    requires n <= |ds|
  {
    if n == 0 then 0.0 else PrefixSum(ds, n - 1) + ds[n - 1]
  }

  // `i` is the first index at which the running sum reaches the drawn share of the total.
  ghost predicate FirstReach(ds: seq<real>, draw: real, total: real, i: nat) {
    && i < |ds| && PrefixSum(ds, i + 1) >= draw * total
    && forall j | 1 <= j <= i :: PrefixSum(ds, j) < draw * total
  }

  // `ds` are the least squared distances of the items to the centroids.
  ghost predicate LeastDists(xs: seq<Vec>, d: nat, cs: seq<Vec>, ds: seq<real>)
    requires AllDim(xs, d) && AllDim(cs, d)
  {
    |ds| == |xs| && forall i | 0 <= i < |xs| :: IsMinDist(xs[i], cs, ds[i])
  }

  // The next centroid as k-means++ draws it: by squared distance to the ones chosen so far, or the first item when
  // every item already is one of them.
  ghost predicate DrawnBy(xs: seq<Vec>, d: nat, chosen: seq<Vec>, draw: real, x: Vec)
    requires AllDim(xs, d) && AllDim(chosen, d)
  {
    exists ds: seq<real> :: LeastDists(xs, d, chosen, ds) && PickedBy(xs, ds, draw, x)
  }

  ghost predicate PickedBy(xs: seq<Vec>, ds: seq<real>, draw: real, x: Vec)
    requires |ds| == |xs|
  {
    var total := PrefixSum(ds, |ds|);
    if total == 0.0 then xs != [] && x == xs[0]
    else exists i: nat :: i < |xs| && FirstReach(ds, draw, total, i) && x == xs[i]
  }

  // Index drawn with probability proportional to `dists`.
  method Pick(dists: seq<real>, total: real, draw: real) returns (idx: nat)
    requires dists != [] && total == PrefixSum(dists, |dists|) && total > 0.0 && 0.0 <= draw < 1.0
    ensures idx < |dists|
    ensures FirstReach(dists, draw, total, idx)
    ensures draw > 0.0 && (forall i | 0 <= i < |dists| :: dists[i] >= 0.0) ==> dists[idx] > 0.0
    ensures draw == 0.0 && dists[0] >= 0.0 ==> idx == 0
  {
    var threshold := draw * total;
    assert (1.0 - draw) * total >= 0.0 && (1.0 - draw) * total == total - threshold;
    assert (draw > 0.0 ==> threshold > 0.0) && (draw == 0.0 ==> threshold == 0.0);
    var cumulative := 0.0;
    idx := 0;
    for i := 0 to |dists|
      invariant cumulative == PrefixSum(dists, i)
      invariant idx == 0
      invariant i > 0 ==> cumulative < threshold && dists[0] < threshold
      invariant forall j | 1 <= j <= i :: PrefixSum(dists, j) < threshold
    {
      cumulative := cumulative + dists[i];
      if cumulative >= threshold {
        idx := i;
        return;
      }
    }
    assert false;
  }

  /** k-means++: the first centroid is the given item and every later one is drawn by squared distance to those before
      it. So every initial centroid is one of the items; a non-zero draw never repeats an earlier centroid
      while some item is away from all of them, and a zero draw always takes the first item. */
  method InitCentroids(xs: seq<Vec>, d: nat, k: nat, first: nat, draws: seq<real>) returns (cs: seq<Vec>)
    requires xs != [] && AllDim(xs, d) && k > 0 && first < |xs|
    requires |draws| >= k && forall c | 0 <= c < |draws| :: 0.0 <= draws[c] < 1.0
    ensures |cs| == k && AllDim(cs, d)
    ensures forall c | 0 <= c < k :: cs[c] in xs
    ensures cs[0] == xs[first] && forall c | 1 <= c < k && draws[c] == 0.0 :: cs[c] == xs[0]
    ensures forall c | 1 <= c < k && draws[c] > 0.0 :: Spreads(xs, cs, c)
    ensures forall c | 1 <= c < k :: DrawnBy(xs, d, cs[..c], draws[c], cs[c])
  {
    hide DistTo, Spreads, DrawnBy;
    cs := [xs[first]];
    while |cs| < k
      invariant 1 <= |cs| <= k && AllDim(cs, d)
      invariant forall c | 0 <= c < |cs| :: cs[c] in xs
      invariant cs[0] == xs[first] && forall c | 1 <= c < |cs| && draws[c] == 0.0 :: cs[c] == xs[0]
      invariant forall c | 1 <= c < |cs| && draws[c] > 0.0 :: Spreads(xs, cs, c)
      invariant forall c | 1 <= c < |cs| :: DrawnBy(xs, d, cs[..c], draws[c], cs[c])
    {
      var idx := NextCentroid(xs, d, cs, draws[|cs|]);
      forall c | 1 <= c < |cs| + 1 && draws[c] > 0.0 ensures Spreads(xs, cs + [xs[idx]], c) {
        SpreadsSnoc(xs, cs, xs[idx], c);
      }
      ghost var more := cs + [xs[idx]];
      forall c | 1 <= c < |more| ensures DrawnBy(xs, d, more[..c], draws[c], more[c]) {
        assert more[..c] == cs[..c];
        assert cs[..|cs|] == cs;
      }
      cs := cs + [xs[idx]];
    }
  }

  method NextCentroid(xs: seq<Vec>, d: nat, cs: seq<Vec>, draw: real) returns (idx: nat)
    requires xs != [] && AllDim(xs, d) && AllDim(cs, d) && cs != [] && 0.0 <= draw < 1.0
    ensures idx < |xs| && DrawnBy(xs, d, cs, draw, xs[idx])
    ensures draw == 0.0 ==> idx == 0
    ensures draw > 0.0 ==> xs[idx] !in cs || forall i | 0 <= i < |xs| :: xs[i] in cs
  {
    hide DistTo, IsMinDist, PrefixSum, FirstReach, PickedBy;
    var dists, total := Distances(xs, d, cs);
    idx := 0;
    if total != 0.0 {
      idx := Pick(dists, total, draw);
    }
    Picked(xs, dists, draw, total, idx);
    Drawn(xs, d, cs, dists, draw, xs[idx]);
  }

  lemma Picked(xs: seq<Vec>, ds: seq<real>, draw: real, total: real, idx: nat)
    requires |ds| == |xs| > idx && total == PrefixSum(ds, |ds|)
    requires if total == 0.0 then idx == 0 else FirstReach(ds, draw, total, idx)
    ensures PickedBy(xs, ds, draw, xs[idx])
  {
    hide PrefixSum, FirstReach;
  }

  lemma Drawn(xs: seq<Vec>, d: nat, cs: seq<Vec>, ds: seq<real>, draw: real, x: Vec)
    requires AllDim(xs, d) && AllDim(cs, d) && LeastDists(xs, d, cs, ds) && PickedBy(xs, ds, draw, x)
    ensures DrawnBy(xs, d, cs, draw, x)
  {
  }

  lemma SpreadsSnoc(xs: seq<Vec>, cs: seq<Vec>, x: Vec, c: nat)
    requires c <= |cs|
    requires if c < |cs| then Spreads(xs, cs, c) else x !in cs || forall i | 0 <= i < |xs| :: xs[i] in cs
    ensures Spreads(xs, cs + [x], c)
  {
    assert (cs + [x])[..c] == cs[..c];
    if c == |cs| {
      assert cs[..c] == cs;
    }
  }

  method Distances(xs: seq<Vec>, d: nat, cs: seq<Vec>) returns (dists: seq<real>, total: real)
    requires AllDim(xs, d) && AllDim(cs, d) && cs != []
    ensures |dists| == |xs| && total == PrefixSum(dists, |dists|)
    ensures forall i | 0 <= i < |xs| :: IsMinDist(xs[i], cs, dists[i]) && dists[i] >= 0.0
    ensures forall i | 0 <= i < |xs| :: dists[i] == 0.0 <==> xs[i] in cs
    ensures total >= 0.0 && (total == 0.0 <==> forall i | 0 <= i < |xs| :: xs[i] in cs)
  {
    hide DistTo, IsMinDist;
    dists, total := [], 0.0;
    for i := 0 to |xs|
      invariant |dists| == i && total == PrefixSum(dists, i) && total >= 0.0
      invariant forall j | 0 <= j < i :: IsMinDist(xs[j], cs, dists[j]) && dists[j] >= 0.0
      invariant forall j | 0 <= j < i :: dists[j] == 0.0 <==> xs[j] in cs
      invariant total == 0.0 <==> forall j | 0 <= j < i :: xs[j] in cs
    {
      var m := MinDist(xs[i], cs);
      PrefixSumSame(dists, m, i);
      dists := dists + [m];
      total := total + m;
    }
  }

  lemma {:induction false} PrefixSumSame(ds: seq<real>, m: real, n: nat)
    requires n <= |ds|
    ensures PrefixSum(ds + [m], n) == PrefixSum(ds, n)
  {
    if n > 0 {
      PrefixSumSame(ds, m, n - 1);
    }
  }

  // ---- Lloyd iterations -----------------------------------------------------------------------------

  method NearestCentroid(x: Vec, cs: seq<Vec>) returns (best: nat)
    requires cs != [] && AllDim(cs, |x|)
    ensures IsFirstNearest(x, cs, best)
  {
    hide DistTo;
    best := 0;
    var bestDist := EuclidSq(x, cs[0]);
    for c := 1 to |cs|
      invariant best < c && bestDist == DistSq(x, cs[best])
      invariant forall e | 0 <= e < c :: bestDist <= DistSq(x, cs[e])
      invariant forall e | 0 <= e < best :: bestDist < DistSq(x, cs[e])
    {
      var d := EuclidSq(x, cs[c]);
      if d < bestDist {
        bestDist, best := d, c;
      }
    }
  }

  method Assign(xs: seq<Vec>, d: nat, cs: seq<Vec>, assignments: array<nat>) returns (changed: bool)
    requires AllDim(xs, d) && AllDim(cs, d) && cs != [] && assignments.Length == |xs|
    modifies assignments
    ensures AllNearest(xs, assignments[..], cs, d)
    ensures forall i | 0 <= i < |xs| :: IsFirstNearest(xs[i], cs, assignments[i])
    ensures changed <==> assignments[..] != old(assignments[..])
  {
    hide DistTo;
    changed := false;
    for i := 0 to |xs|
      invariant forall j | 0 <= j < i :: IsFirstNearest(xs[j], cs, assignments[j])
      invariant forall j | i <= j < |xs| :: assignments[j] == old(assignments[j])
      invariant changed <==> exists j :: 0 <= j < i && assignments[j] != old(assignments[j])
    {
      var best := NearestCentroid(xs[i], cs);
      if assignments[i] != best {
        assignments[i] := best;
        changed := true;
      }
    }
    if changed {
      ghost var j :| 0 <= j < |xs| && assignments[j] != old(assignments[j]);
      assert assignments[..][j] != old(assignments[..])[j];
    }
  }

  // Per-dimension sums and the size of every cluster, in one pass over the items.
  method Accumulate(xs: seq<Vec>, d: nat, a: seq<nat>, k: nat) returns (sums: array<Vec>, counts: array<nat>)
    requires AllDim(xs, d) && |a| == |xs| && forall i | 0 <= i < |a| :: a[i] < k
    ensures fresh(sums) && fresh(counts) && sums.Length == counts.Length == k
    ensures forall c | 0 <= c < k :: Summed(xs, a, c, |xs|, d, sums[c], counts[c])
  {
    sums := new Vec[k](_ => seq(d, _ => 0.0));
    counts := new nat[k](_ => 0);
    for i := 0 to |xs|
      invariant forall c | 0 <= c < k :: Summed(xs, a, c, i, d, sums[c], counts[c])
    {
      var c := a[i];
      ghost var before := sums[c];
      assert Summed(xs, a, c, i, d, before, counts[c]);
      counts[c] := counts[c] + 1;
      var row := sums[c];
      for j := 0 to d
        invariant |row| == d
        invariant forall l | 0 <= l < j :: row[l] == before[l] + xs[i][l]
        invariant forall l | j <= l < d :: row[l] == before[l]
      {
        row := row[j := row[j] + xs[i][j]];
      }
      SummedStep(xs, a, c, i, d, before, counts[c] - 1, row);
      sums[c] := row;
      forall e | 0 <= e < k && e != c ensures Summed(xs, a, e, i + 1, d, sums[e], counts[e]) {
        assert Summed(xs, a, e, i, d, sums[e], counts[e]);
        assert Members(xs, a, e, i + 1) == Members(xs, a, e, i);
      }
    }
  }

  ghost predicate Summed(xs: seq<Vec>, a: seq<nat>, c: nat, n: nat, d: nat, sum: Vec, count: nat)
    requires n <= |xs| == |a| && AllDim(xs, d)
  {
    MembersDim(xs, a, c, n, d);
    var ms := Members(xs, a, c, n);
    count == |ms| && |sum| == d && forall j | 0 <= j < d :: sum[j] == SumAt(ms, j)
  }

  lemma SummedStep(xs: seq<Vec>, a: seq<nat>, c: nat, n: nat, d: nat, sum: Vec, count: nat, row: Vec)
    requires n < |xs| == |a| && AllDim(xs, d) && a[n] == c && Summed(xs, a, c, n, d, sum, count)
    requires |row| == d && forall j | 0 <= j < d :: row[j] == sum[j] + xs[n][j]
    ensures Summed(xs, a, c, n + 1, d, row, count + 1)
  {
    MembersDim(xs, a, c, n, d);
    MembersDim(xs, a, c, n + 1, d);
    var ms := Members(xs, a, c, n);
    assert (ms + [xs[n]])[..|ms|] == ms;
  }

  method Recompute(xs: seq<Vec>, d: nat, a: seq<nat>, centroids: array<Vec>)
    requires AllDim(xs, d) && |a| == |xs| && AllDim(centroids[..], d)
    requires forall i | 0 <= i < |a| :: a[i] < centroids.Length
    modifies centroids
    ensures Recentred(xs, a, old(centroids[..]), centroids[..], d)
  {
    hide SumAt, Members;
    var k := centroids.Length;
    var sums, counts := Accumulate(xs, d, a, k);
    for c := 0 to k
      invariant forall e | 0 <= e < c :: CentreOf(xs, a, e, d, old(centroids[e]), centroids[e])
      invariant forall e | c <= e < k :: centroids[e] == old(centroids[e])
      invariant forall e | 0 <= e < k :: Summed(xs, a, e, |xs|, d, sums[e], counts[e])
    {
      assert Summed(xs, a, c, |xs|, d, sums[c], counts[c]);
      if counts[c] > 0 {
        var row := centroids[c];
        assert row == old(centroids[..])[c];
        for j := 0 to |row|
          invariant |row| == d
          invariant forall l | 0 <= l < j :: row[l] == sums[c][l] / counts[c] as real
        {
          row := row[j := sums[c][j] / counts[c] as real];
        }
        MembersDim(xs, a, c, |xs|, d);
        assert row == Mean(Members(xs, a, c, |xs|), d);
        centroids[c] := row;
      }
    }
    forall c | 0 <= c < k ensures CentreOf(xs, a, c, d, old(centroids[..])[c], centroids[..][c]) {
    }
  }

  ghost predicate CentreOf(xs: seq<Vec>, a: seq<nat>, c: nat, d: nat, before: Vec, after: Vec)
    requires |a| == |xs| && AllDim(xs, d)
  {
    MembersDim(xs, a, c, |xs|, d);
    var ms := Members(xs, a, c, |xs|);
    after == if ms == [] then before else Mean(ms, d)
  }

  // ---- Results ------------------------------------------------------------------------------------

  method ComputeCentroid(items: seq<Item>, d: nat) returns (centroid: Vec)
    requires items != [] && AllDim(Vecs(items), d)
    ensures centroid == Mean(Vecs(items), d)
  {
    var vs := Vecs(items);
    centroid := seq(d, _ => 0.0);
    for i := 0 to |items|
      invariant |centroid| == d
      invariant forall j | 0 <= j < d :: centroid[j] == SumAt(vs[..i], j)
    {
      ghost var before := centroid;
      assert vs[..i + 1][..i] == vs[..i];
      for j := 0 to d
        invariant |centroid| == d
        invariant forall l | 0 <= l < j :: centroid[l] == before[l] + vs[i][l]
        invariant forall l | j <= l < d :: centroid[l] == before[l]
      {
        centroid := centroid[j := centroid[j] + items[i].embedding[j]];
      }
    }
    assert vs[..|items|] == vs;
    ghost var sums := centroid;
    for j := 0 to d
      invariant |centroid| == d
      invariant forall l | 0 <= l < j :: centroid[l] == sums[l] / |items| as real
      invariant forall l | j <= l < d :: centroid[l] == sums[l]
    {
      centroid := centroid[j := centroid[j] / |items| as real];
    }
  }

  method NearestToCentroid(centroid: Vec, members: seq<Item>) returns (text: string)
    requires members != [] && AllDim(Vecs(members), |centroid|)
    ensures exists m :: 0 <= m < |members| && members[m].text == text && IsFirstNearest(centroid, Vecs(members), m)
  {
    hide DistTo;
    var vs := Vecs(members);
    var best := NearestCentroid(centroid, vs);
    text := members[best].text;
  }

  ghost predicate IsResult(items: seq<Item>, a: seq<nat>, cs: seq<Vec>, d: nat, results: seq<Cluster>)
    requires |a| == |items| && AllDim(Vecs(items), d)
  {
    && |results| == |cs|
    && (forall c | 0 <= c < |cs| :: results[c].members == Members(items, a, c, |items|))
    && Recentred(Vecs(items), a, cs, Centres(results), d)
  }

  function Centres(results: seq<Cluster>): (cs: seq<Vec>)
    ensures |cs| == |results| && forall c | 0 <= c < |results| :: cs[c] == results[c].centroid
  {
    seq(|results|, c requires 0 <= c < |results| => results[c].centroid)
  }

  method Collect(items: seq<Item>, a: seq<nat>, k: nat) returns (lists: array<seq<Item>>)
    requires |a| == |items| && forall i | 0 <= i < |a| :: a[i] < k
    ensures fresh(lists) && lists.Length == k
    ensures forall c | 0 <= c < k :: lists[c] == Members(items, a, c, |items|)
  {
    lists := new seq<Item>[k](_ => []);
    for i := 0 to |items|
      invariant forall c | 0 <= c < k :: lists[c] == Members(items, a, c, i)
    {
      lists[a[i]] := lists[a[i]] + [items[i]];
    }
  }

  method BuildCluster(items: seq<Item>, a: seq<nat>, c: nat, prior: Vec, d: nat, members: seq<Item>)
    returns (r: Cluster)
    requires AllDim(Vecs(items), d) && |a| == |items| && members == Members(items, a, c, |items|)
    ensures r.members == members && CentreOf(Vecs(items), a, c, d, prior, r.centroid)
  {
    hide SumAt, Members;
    MembersOfItems(items, a, c, |items|);
    MembersDim(Vecs(items), a, c, |items|, d);
    if |members| == 0 {
      r := Cluster(prior, []);
    } else {
      var centroid := ComputeCentroid(members, d);
      r := Cluster(centroid, members);
    }
  }

  method BuildResults(items: seq<Item>, a: seq<nat>, cs: seq<Vec>, d: nat) returns (results: seq<Cluster>)
    requires AllDim(Vecs(items), d) && |a| == |items| && forall i | 0 <= i < |a| :: a[i] < |cs|
    ensures IsResult(items, a, cs, d, results)
  {
    hide SumAt, Members;
    var lists := Collect(items, a, |cs|);
    var memberLists := lists[..];
    results := [];
    for c := 0 to |cs|
      invariant |results| == c
      invariant forall e | 0 <= e < c :: results[e].members == memberLists[e]
      invariant forall e | 0 <= e < c :: CentreOf(Vecs(items), a, e, d, cs[e], results[e].centroid)
    {
      var r := BuildCluster(items, a, c, cs[c], d, memberLists[c]);
      results := results + [r];
    }
    forall c | 0 <= c < |cs| ensures CentreOf(Vecs(items), a, c, d, cs[c], Centres(results)[c]) {
    }
  }

  // ---- The whole procedure ------------------------------------------------------------------------

  // Final assignment and centroids of Lloyd's loop, with what is known about how it ended.
  datatype Outcome = Outcome(a: seq<nat>, cs: seq<Vec>, updates: nat, settled: bool)

  ghost predicate Cheaper(xs: seq<Vec>, d: nat, cs0: seq<Vec>, a: seq<nat>, cs: seq<Vec>) {
    && Clustering(xs, a, cs, d)
    && forall b | Clustering(xs, b, cs0, d) :: Cost(xs, a, cs, d, |xs|) <= Cost(xs, b, cs0, d, |xs|)
  }

  // The current centroids are the means of the current clusters.
  ghost predicate AtMeans(xs: seq<Vec>, a: seq<nat>, cs: seq<Vec>, d: nat)
    requires |a| == |xs| && AllDim(xs, d)
  {
    Recentred(xs, a, cs, cs, d)
  }

  lemma RecentredTwice(xs: seq<Vec>, a: seq<nat>, cs: seq<Vec>, ds: seq<Vec>, d: nat)
    requires |a| == |xs| && AllDim(xs, d) && Recentred(xs, a, cs, ds, d)
    ensures AtMeans(xs, a, ds, d)
  {
  }

  lemma RecentredSame(xs: seq<Vec>, a: seq<nat>, cs: seq<Vec>, ds: seq<Vec>, d: nat)
    requires |a| == |xs| && AllDim(xs, d) && AtMeans(xs, a, cs, d) && Recentred(xs, a, cs, ds, d)
    ensures ds == cs
  {
    forall c | 0 <= c < |cs| ensures ds[c] == cs[c] {
      MembersDim(xs, a, c, |xs|, d);
    }
  }

  ghost predicate Assigned(xs: seq<Vec>, d: nat, cs: seq<Vec>, a: seq<nat>)
    requires AllDim(xs, d) && AllDim(cs, d)
  {
    |a| == |xs| && forall i | 0 <= i < |xs| :: IsFirstNearest(xs[i], cs, a[i])
  }

  // One iteration that changes the assignment from `a` to `b` and the centroids from `cs` to `ds`.
  ghost predicate Iteration(xs: seq<Vec>, d: nat, a: seq<nat>, cs: seq<Vec>, b: seq<nat>, ds: seq<Vec>) {
    AllDim(xs, d) && AllDim(cs, d) && Assigned(xs, d, cs, b) && b != a && Recentred(xs, b, cs, ds, d)
  }

  // The assignments and centroids that the loop goes through, from all items in the first cluster.
  ghost predicate Iterations(xs: seq<Vec>, d: nat, cs0: seq<Vec>, bs: seq<seq<nat>>, css: seq<seq<Vec>>) {
    && |bs| == |css| >= 1 && css[0] == cs0 && bs[0] == seq(|xs|, _ => 0)
    && forall i | 0 <= i < |bs| - 1 :: Iteration(xs, d, bs[i], css[i], bs[i + 1], css[i + 1])
  }

  // The loop ends at the first assignment that changes nothing, or after the hundredth update.
  ghost predicate LloydResult(xs: seq<Vec>, d: nat, cs0: seq<Vec>, o: Outcome)
    requires AllDim(xs, d) && AllDim(o.cs, d)
  {
    && (exists bs, css :: Iterations(xs, d, cs0, bs, css) && LastOf(bs, css, o))
    && o.updates <= 100 && (o.settled <==> o.updates < 100) && (o.settled ==> Assigned(xs, d, o.cs, o.a))
  }

  ghost predicate LastOf(bs: seq<seq<nat>>, css: seq<seq<Vec>>, o: Outcome) {
    |bs| == |css| == o.updates + 1 && o.a == bs[o.updates] && o.cs == css[o.updates]
  }

  lemma NextIteration(xs: seq<Vec>, d: nat, cs0: seq<Vec>, bs: seq<seq<nat>>, css: seq<seq<Vec>>, b: seq<nat>,
                      ds: seq<Vec>)
    requires Iterations(xs, d, cs0, bs, css) && Iteration(xs, d, bs[|bs| - 1], css[|bs| - 1], b, ds)
    ensures Iterations(xs, d, cs0, bs + [b], css + [ds])
  {
    hide Iteration;
    var bs', css' := bs + [b], css + [ds];
    forall i | 0 <= i < |bs'| - 1 ensures Iteration(xs, d, bs'[i], css'[i], bs'[i + 1], css'[i + 1]) {
      if i < |bs| - 1 {
        assert Iteration(xs, d, bs[i], css[i], bs[i + 1], css[i + 1]);
      }
    }
  }

  /** The loop is Lloyd's iteration. It never costs more than any assignment to the initial centroids; when it stops
      because nothing changed, every item is nearest to its own centroid, and after at least one update those are the
      means. */
  method Lloyd(xs: seq<Vec>, d: nat, cs0: seq<Vec>) returns (o: Outcome)
    requires xs != [] && AllDim(xs, d) && AllDim(cs0, d) && cs0 != []
    ensures |o.cs| == |cs0| && Cheaper(xs, d, cs0, o.a, o.cs)
    ensures o.updates <= MAX_ITERATIONS && (o.settled || o.updates == MAX_ITERATIONS)
    ensures o.updates > 0 ==> AtMeans(xs, o.a, o.cs, d)
    ensures o.settled ==> AllNearest(xs, o.a, o.cs, d)
    ensures o.updates == 0 ==> o.settled && o.cs == cs0 && forall i | 0 <= i < |o.a| :: o.a[i] == 0
    ensures Coincide(cs0) ==> o.updates == 0
    ensures AllDim(o.cs, d) && LloydResult(xs, d, cs0, o)
  {
    hide Iterations, Iteration, Assigned;
    hide Recentred, Cost, Cheaper, AllNearest, Members, DistTo, Clustering;
    var k := |cs0|;
    var centroids := new Vec[k](c requires 0 <= c < k => cs0[c]);
    assert centroids[..] == cs0;
    var assignments := new nat[|xs|](_ => 0);
    ghost var bs, css := [seq(|xs|, _ => 0)], [cs0];
    FirstIteration(xs, d, cs0);
    assert assignments[..] == bs[0];
    var iter := 0;
    while iter < MAX_ITERATIONS
      invariant iter <= MAX_ITERATIONS
      invariant |centroids[..]| == k && AllDim(centroids[..], d)
      invariant iter == 0 ==> centroids[..] == cs0 && forall i | 0 <= i < |xs| :: assignments[i] == 0
      invariant iter > 0 ==> !Coincide(cs0)
      invariant |bs| == |css| == iter + 1 && bs[iter] == assignments[..] && css[iter] == centroids[..]
      invariant Iterations(xs, d, cs0, bs, css)
      invariant iter > 0 ==> Cheaper(xs, d, cs0, assignments[..], centroids[..])
      invariant iter > 0 ==> AtMeans(xs, assignments[..], centroids[..], d)
      decreases MAX_ITERATIONS - iter
    {
      ghost var a := assignments[..];
      ghost var cs := centroids[..];
      var changed := Assign(xs, d, centroids[..], assignments);
      ghost var b := assignments[..];
      AssignKeeps(xs, d, cs0, a, b, cs, iter > 0);
      AssignedIs(xs, d, cs, b);
      if !changed {
        assert iter == 0 ==> forall i | 0 <= i < |b| :: b[i] == a[i] == 0;
        o := Outcome(assignments[..], centroids[..], iter, true);
        assert LastOf(bs, css, o);
        return;
      }
      if Coincide(cs) {
        FirstOfSame(xs, b, cs);
      }
      NearestInRange(xs, b, cs, d);
      Recompute(xs, d, assignments[..], centroids);
      UpdateKeeps(xs, d, cs0, b, cs, centroids[..]);
      IterationIs(xs, d, a, cs, b, centroids[..]);
      NextIteration(xs, d, cs0, bs, css, b, centroids[..]);
      bs, css := bs + [b], css + [centroids[..]];
      iter := iter + 1;
    }
    o := Outcome(assignments[..], centroids[..], iter, false);
    assert LastOf(bs, css, o);
  }

  lemma FirstIteration(xs: seq<Vec>, d: nat, cs0: seq<Vec>)
    ensures Iterations(xs, d, cs0, [seq(|xs|, _ => 0)], [cs0])
  {
  }

  lemma AssignedIs(xs: seq<Vec>, d: nat, cs: seq<Vec>, a: seq<nat>)
    requires AllDim(xs, d) && AllDim(cs, d) && |a| == |xs|
    requires forall i | 0 <= i < |xs| :: IsFirstNearest(xs[i], cs, a[i])
    ensures Assigned(xs, d, cs, a)
  {
  }

  lemma IterationIs(xs: seq<Vec>, d: nat, a: seq<nat>, cs: seq<Vec>, b: seq<nat>, ds: seq<Vec>)
    requires AllDim(xs, d) && AllDim(cs, d) && Assigned(xs, d, cs, b) && b != a && Recentred(xs, b, cs, ds, d)
    ensures Iteration(xs, d, a, cs, b, ds)
  {
  }

  ghost predicate Coincide(cs: seq<Vec>) {
    forall c | 0 <= c < |cs| :: cs[c] == cs[0]
  }

  // Among coinciding centroids every item goes to the first.
  lemma FirstOfSame(xs: seq<Vec>, a: seq<nat>, cs: seq<Vec>)
    requires |a| == |xs| && Coincide(cs) && forall i | 0 <= i < |xs| :: AllDim(cs, |xs[i]|)
    requires forall i | 0 <= i < |xs| :: IsFirstNearest(xs[i], cs, a[i])
    ensures forall i | 0 <= i < |a| :: a[i] == 0
  {
    hide DistTo;
    forall i | 0 <= i < |a| ensures a[i] == 0 {
      assert IsFirstNearest(xs[i], cs, a[i]) && cs[a[i]] == cs[0];
    }
  }

  lemma NearestInRange(xs: seq<Vec>, a: seq<nat>, cs: seq<Vec>, d: nat)
    requires AllDim(xs, d) && AllDim(cs, d) && AllNearest(xs, a, cs, d)
    ensures |a| == |xs| && (forall i | 0 <= i < |a| :: a[i] < |cs|) && Clustering(xs, a, cs, d)
  {
  }

  lemma AssignKeeps(xs: seq<Vec>, d: nat, cs0: seq<Vec>, a: seq<nat>, b: seq<nat>, cs: seq<Vec>, started: bool)
    requires AllDim(xs, d) && AllDim(cs, d) && AllNearest(xs, b, cs, d)
    requires if started then Cheaper(xs, d, cs0, a, cs) else cs == cs0
    ensures Cheaper(xs, d, cs0, b, cs)
  {
    hide DistTo, Cost;
    NearestInRange(xs, b, cs, d);
    if started {
      AssignmentStep(xs, a, b, cs, d, |xs|);
    } else {
      forall e | Clustering(xs, e, cs0, d) ensures Cost(xs, b, cs, d, |xs|) <= Cost(xs, e, cs0, d, |xs|) {
        AssignmentStep(xs, e, b, cs, d, |xs|);
      }
    }
  }

  lemma UpdateKeeps(xs: seq<Vec>, d: nat, cs0: seq<Vec>, a: seq<nat>, cs: seq<Vec>, ds: seq<Vec>)
    requires Cheaper(xs, d, cs0, a, cs) && Recentred(xs, a, cs, ds, d)
    ensures Cheaper(xs, d, cs0, a, ds) && AllDim(ds, d) && AtMeans(xs, a, ds, d)
  {
    hide Cost;
    UpdateStep(xs, a, cs, ds, d);
    RecentredTwice(xs, a, cs, ds, d);
  }

  // ---- A loop that settles before its first update -------------------------------------------------

  lemma {:induction false} MembersOfZeros(xs: seq<Vec>, a: seq<nat>, c: nat, n: nat)
    requires n <= |xs| == |a| && forall i | 0 <= i < |a| :: a[i] == 0
    ensures Members(xs, a, c, n) == if c == 0 then xs[..n] else []
  {
    if n > 0 {
      MembersOfZeros(xs, a, c, n - 1);
    }
  }

  // Every initial centroid is an item, so one that differs from the first would have attracted its item.
  lemma SameCentroids(xs: seq<Vec>, d: nat, a: seq<nat>, cs: seq<Vec>)
    requires AllDim(xs, d) && AllDim(cs, d) && AllNearest(xs, a, cs, d) && forall i | 0 <= i < |a| :: a[i] == 0
    requires forall c | 0 <= c < |cs| :: cs[c] in xs
    ensures forall c | 0 <= c < |cs| :: cs[c] == cs[0]
  {
    hide DistTo;
    forall c | 0 <= c < |cs| ensures cs[c] == cs[0] {
      var i :| 0 <= i < |xs| && xs[i] == cs[c];
      assert IsNearest(xs[i], cs, a[i]);
      SameVec(xs[i], cs[c]);
      SameVec(xs[i], cs[0]);
    }
  }

  /** When the very first assignment changes nothing, all items are in the first cluster, and they are nearest to
      its mean exactly when it is the only cluster or the first centroid already was the mean of all items. */
  lemma SettledAtOnce(xs: seq<Vec>, d: nat, a: seq<nat>, cs: seq<Vec>, ds: seq<Vec>)
    requires xs != [] && AllDim(xs, d) && AllDim(cs, d) && cs != []
    requires AllNearest(xs, a, cs, d) && forall i | 0 <= i < |a| :: a[i] == 0
    requires forall c | 0 <= c < |cs| :: cs[c] in xs
    requires Recentred(xs, a, cs, ds, d) && AllDim(ds, d)
    ensures AllNearest(xs, a, ds, d) <==> |cs| == 1 || cs[0] == Mean(xs, d)
  {
    hide DistTo, SumAt, Members;
    var m := Mean(xs, d);
    SameCentroids(xs, d, a, cs);
    forall c | 0 <= c < |cs| ensures ds[c] == if c == 0 then m else cs[0] {
      MembersOfZeros(xs, a, c, |xs|);
      assert xs[..|xs|] == xs;
    }
    if |cs| > 1 {
      var i :| 0 <= i < |xs| && xs[i] == cs[0];
      SameVec(xs[i], cs[0]);
      SameVec(xs[i], m);
      assert ds[1] == cs[0];
      if AllNearest(xs, a, ds, d) {
        assert IsNearest(xs[i], ds, a[i]);
      }
      if cs[0] == m {
        forall j | 0 <= j < |xs| ensures IsNearest(xs[j], ds, a[j]) {
          assert forall e | 0 <= e < |ds| :: ds[e] == m;
        }
      }
    } else {
      forall j | 0 <= j < |xs| ensures IsNearest(xs[j], ds, a[j]) {
        assert forall e | 0 <= e < |ds| :: ds[e] == ds[0];
      }
    }
  }

  // If every item is the first centroid, that is their mean.
  lemma SameItems(xs: seq<Vec>, d: nat, v: Vec)
    requires xs != [] && |v| == d && forall i | 0 <= i < |xs| :: xs[i] == v
    ensures v == Mean(xs, d)
  {
    hide DistTo, SumAt;
    var m := Mean(xs, d);
    SpreadAroundMean(xs, v);
    SpreadOfSame(xs, v);
    var n, dist := |xs| as real, DistSq(m, v);
    ZeroFactor(n, dist, Spread(xs, m));
    SameVec(m, v);
  }

  lemma ZeroFactor(n: real, dist: real, rest: real)
    requires n > 0.0 && dist >= 0.0 && rest >= 0.0 && rest + n * dist == 0.0
    ensures dist == 0.0
  {
    assert n * dist >= 0.0;
  }

  lemma {:induction false} SpreadOfSame(xs: seq<Vec>, v: Vec)
    requires forall i | 0 <= i < |xs| :: xs[i] == v
    ensures Spread(xs, v) == 0.0
  {
    hide DistTo;
    if xs != [] {
      SpreadOfSame(xs[..|xs| - 1], v);
      SameVec(v, v);
    }
  }

  // A non-zero draw repeats an earlier centroid only if all items coincide.
  lemma LaterDraw(xs: seq<Vec>, d: nat, a: seq<nat>, cs: seq<Vec>, c: nat)
    requires xs != [] && AllDim(xs, d) && AllDim(cs, d) && 1 <= c < |cs| && Spreads(xs, cs, c)
    requires AllNearest(xs, a, cs, d) && forall i | 0 <= i < |a| :: a[i] == 0
    requires forall e | 0 <= e < |cs| :: cs[e] in xs
    ensures cs[0] == Mean(xs, d)
  {
    SameCentroids(xs, d, a, cs);
    assert cs[..c][0] == cs[0];
    SameItems(xs, d, cs[0]);
  }

  // The draws do not all fall on one item that is not the mean: checked before the clustering starts.
  ghost predicate WellStarted(xs: seq<Vec>, d: nat, k: nat, first: nat, draws: seq<real>)
    requires first < |xs| && AllDim(xs, d) && k <= |draws|
  {
    || k == 1
    || (exists c :: 1 <= c < k && draws[c] > 0.0)
    || xs[first] != xs[0]
    || xs[0] == Mean(xs, d)
  }

  // The initial centroids as InitCentroids promises them.
  ghost predicate Seeded(xs: seq<Vec>, d: nat, cs: seq<Vec>, first: nat, draws: seq<real>)
    requires first < |xs| && |cs| <= |draws| && AllDim(xs, d)
  {
    && AllDim(cs, d) && (forall c | 1 <= c < |cs| :: DrawnBy(xs, d, cs[..c], draws[c], cs[c]))
    && cs != [] && cs[0] == xs[first] && (forall c | 0 <= c < |cs| :: cs[c] in xs)
    && (forall c | 1 <= c < |cs| && draws[c] == 0.0 :: cs[c] == xs[0])
    && (forall c | 1 <= c < |cs| && draws[c] > 0.0 :: Spreads(xs, cs, c))
  }

  lemma BadStart(xs: seq<Vec>, d: nat, cs: seq<Vec>, first: nat, draws: seq<real>)
    requires first < |xs| && AllDim(xs, d) && |cs| <= |draws| && Seeded(xs, d, cs, first, draws)
    requires forall c | 0 <= c < |draws| :: 0.0 <= draws[c] < 1.0
    ensures !WellStarted(xs, d, |cs|, first, draws) ==> Coincide(cs) && |cs| > 1 && cs[0] != Mean(xs, d)
  {
  }

  lemma GoodStart(xs: seq<Vec>, d: nat, a: seq<nat>, cs: seq<Vec>, first: nat, draws: seq<real>)
    requires first < |xs| && AllDim(xs, d) && AllDim(cs, d) && |cs| <= |draws| && Seeded(xs, d, cs, first, draws)
    requires forall c | 0 <= c < |draws| :: 0.0 <= draws[c] < 1.0
    requires AllNearest(xs, a, cs, d) && forall i | 0 <= i < |a| :: a[i] == 0
    requires WellStarted(xs, d, |cs|, first, draws)
    ensures |cs| == 1 || cs[0] == Mean(xs, d)
  {
    hide AllNearest, Spreads;
    SameCentroids(xs, d, a, cs);
    if c :| 1 <= c < |cs| && draws[c] > 0.0 {
      LaterDraw(xs, d, a, cs, c);
    } else if |cs| > 1 {
      assert draws[1] == 0.0 && cs[1] == xs[0] == cs[0];
    }
  }

  /** Two items at 0 and 10, with a zero draw that takes the first item twice: the loop stops at once and returns
      the centres 5 and 0, of which the first item is nearer to the other cluster's. */
  lemma SettledTooEarly(xs: seq<Vec>, a: seq<nat>, cs: seq<Vec>, ds: seq<Vec>)
    requires xs == [[0.0], [10.0]] && a == [0, 0] && cs == [xs[0], xs[0]]
    requires Recentred(xs, a, cs, ds, 1) && AllDim(ds, 1)
    ensures AllNearest(xs, a, cs, 1) && !AllNearest(xs, a, ds, 1)
  {
    MeanOfTwo(xs);
    SettledAtOnce(xs, 1, a, cs, ds);
  }

  lemma MeanOfTwo(xs: seq<Vec>)
    requires xs == [[0.0], [10.0]]
    ensures Mean(xs, 1)[0] == 5.0
  {
    assert xs[..1][..0] == [] && SumAt(xs[..1], 0) == 0.0;
    assert SumAt(xs, 0) == 10.0;
  }

  /** The whole clustering. Members partition the items; the returned centroids cost no more than any
      assignment to the initial ones. A loop that settles leaves every item nearest to its own cluster's mean exactly
      if there is one cluster, or some later draw is not zero, or the first centroid is not the first item, or the
      first item is the mean of all items. */
  method Run(items: seq<Item>, k: int, first: nat, draws: seq<real>)
    returns (results: seq<Cluster>, o: Outcome, cs0: seq<Vec>)
    requires items != [] ==> first < |items| && AllDim(Vecs(items), |items[0].embedding|)
    requires |draws| >= k && forall c | 0 <= c < |draws| :: 0.0 <= draws[c] < 1.0
    ensures items == [] || k <= 0 ==> results == []
    ensures items != [] && k > 0 ==>
              var d := |items[0].embedding|;
              && |results| == k && |o.a| == |items| && (forall i | 0 <= i < |items| :: o.a[i] < k)
              && (forall c | 0 <= c < k :: results[c].members == Members(items, o.a, c, |items|))
              && MembersTo(items, o.a, |items|, k) == multiset(items)
              && |cs0| == k && Seeded(Vecs(items), d, cs0, first, draws)
              && Cheaper(Vecs(items), d, cs0, o.a, Centres(results))
              && AtMeans(Vecs(items), o.a, Centres(results), d)
              && AllDim(o.cs, d) && LloydResult(Vecs(items), d, cs0, o)
              && Recentred(Vecs(items), o.a, o.cs, Centres(results), d)
              && AllDim(Centres(results), d)
              && ((o.settled ==> AllNearest(Vecs(items), o.a, Centres(results), d)) <==>
                    WellStarted(Vecs(items), d, k, first, draws))
  {
    hide Recentred, Cost, Cheaper, AllNearest, Members, MembersTo, DistTo, Clustering, Spreads, AtMeans;
    hide Coincide, WellStarted, LloydResult, DrawnBy;
    results, o, cs0 := [], Outcome([], [], 0, false), [];
    if |items| == 0 || k <= 0 {
      return;
    }
    var d := |items[0].embedding|;
    var xs := Vecs(items);
    cs0 := InitCentroids(xs, d, k, first, draws);
    o := Lloyd(xs, d, cs0);
    ClusteringOf(xs, d, cs0, o);
    results := BuildResults(items, o.a, o.cs, d);
    ResultCost(xs, d, cs0, o, Centres(results));
    ResultPartition(items, o.a, k);
    BadStart(xs, d, cs0, first, draws);
    if o.updates == 0 {
      SettledAtOnce(xs, d, o.a, o.cs, Centres(results));
      if WellStarted(xs, d, k, first, draws) {
        GoodStart(xs, d, o.a, o.cs, first, draws);
      }
    }
  }

  lemma ZeroDrawStart(xs: seq<Vec>, draws: seq<real>)
    requires xs == [[0.0], [10.0]] && draws == [0.0, 0.0]
    ensures !WellStarted(xs, 1, 2, 0, draws)
  {
    MeanOfTwo(xs);
  }

  /** The failing family has members: two items at 0 and 10, two clusters, and a draw of zero. */
  method ZeroDraw() returns (results: seq<Cluster>, a: seq<nat>)
    ensures |results| == 2 && |a| == 2 && AllDim(Centres(results), 1)
    ensures !AllNearest([[0.0], [10.0]], a, Centres(results), 1)
  {
    hide AllNearest, Cheaper, AtMeans, Members, MembersTo, Seeded, WellStarted, DistTo, SumAt, Spreads;
    var items, draws := [Item("near", [0.0]), Item("far", [10.0])], [0.0, 0.0];
    ghost var xs := Vecs(items);
    assert xs == [[0.0], [10.0]];
    ZeroDrawStart(xs, draws);
    var o, cs0;
    results, o, cs0 := Run(items, 2, 0, draws);
    a := o.a;
  }

  lemma ClusteringOf(xs: seq<Vec>, d: nat, cs0: seq<Vec>, o: Outcome)
    requires Cheaper(xs, d, cs0, o.a, o.cs)
    ensures |o.a| == |xs| && AllDim(o.cs, d) && forall i | 0 <= i < |o.a| :: o.a[i] < |o.cs|
  {
  }

  lemma ResultCost(xs: seq<Vec>, d: nat, cs0: seq<Vec>, o: Outcome, ds: seq<Vec>)
    requires AllDim(xs, d) && Cheaper(xs, d, cs0, o.a, o.cs)
    requires o.updates > 0 ==> AtMeans(xs, o.a, o.cs, d)
    requires o.settled ==> AllDim(o.cs, d) && AllNearest(xs, o.a, o.cs, d)
    requires Recentred(xs, o.a, o.cs, ds, d)
    ensures Cheaper(xs, d, cs0, o.a, ds) && AtMeans(xs, o.a, ds, d) && AllDim(ds, d)
    ensures o.settled && o.updates > 0 ==> AllNearest(xs, o.a, ds, d)
  {
    hide SumAt, DistTo, Cost, Members, Recentred, AtMeans;
    UpdateKeeps(xs, d, cs0, o.a, o.cs, ds);
    if o.updates > 0 {
      RecentredSame(xs, o.a, o.cs, ds, d);
    }
  }

  lemma ResultPartition(items: seq<Item>, a: seq<nat>, k: nat)
    requires |a| == |items| && forall i | 0 <= i < |a| :: a[i] < k
    ensures MembersTo(items, a, |items|, k) == multiset(items)
  {
    MembersPartition(items, a, |items|, k);
    assert items[..|items|] == items;
  }
}
