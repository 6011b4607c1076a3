/** Training of one quantiser segment: Lloyd's alternation of nearest-centroid
    assignment and mean update, over exact reals. */
module Lloyd {
  import opened SquaredDistance

  const MAX_ITERS := 10

  predicate Shaped(vs: seq<Vector>, dim: nat) { forall i :: 0 <= i < |vs| ==> |vs[i]| == dim }

  predicate InRange(assign: seq<nat>, k: nat) { forall i :: 0 <= i < |assign| ==> assign[i] < k }

  /** A training problem: vectors, an assignment for each, centroids of the same dimension. */
  predicate Problem(vecs: seq<Vector>, assign: seq<nat>, cents: seq<Vector>, dim: nat) {
    Shaped(vecs, dim) && Shaped(cents, dim) && |assign| == |vecs| && InRange(assign, |cents|)
  }

  /** Total squared error of the first `n` vectors. */
  function Error(vecs: seq<Vector>, assign: seq<nat>, cents: seq<Vector>, dim: nat, n: nat): real
    requires Problem(vecs, assign, cents, dim) && n <= |vecs|
  {
    if n == 0 then 0.0 else Error(vecs, assign, cents, dim, n - 1) + L2(vecs[n - 1], cents[assign[n - 1]])
  }

  function TotalError(vecs: seq<Vector>, assign: seq<nat>, cents: seq<Vector>, dim: nat): real
    requires Problem(vecs, assign, cents, dim)
  {
    Error(vecs, assign, cents, dim, |vecs|)
  }

  // ---- Assignment step -----------------------------------------------------------

  /** `c` is the first nearest of the first `n` centroids. */
  predicate Nearest(v: Vector, cents: seq<Vector>, c: nat, n: nat)
    requires Shaped(cents, |v|) && n <= |cents|
  {
    c < n && forall b :: 0 <= b < n ==>
      L2(v, cents[c]) <= L2(v, cents[b]) && (b < c ==> L2(v, cents[c]) < L2(v, cents[b]))
  }

  method NearestOf(v: Vector, cents: seq<Vector>, k: nat) returns (best: nat)
    requires Shaped(cents, |v|) && 0 < k <= |cents|
    ensures Nearest(v, cents, best, k)
  {
    best := 0;
    var bestDist := 0.0;
    for c := 0 to k
      invariant c > 0 ==> Nearest(v, cents, best, c) && bestDist == L2(v, cents[best])
    {
      var dist := L2Sq(v, cents[c]);
      if c == 0 || dist < bestDist { best, bestDist := c, dist; }
    }
  }

  /** Every vector of the first `n` sits with its nearest centroid. */
  predicate AllNearest(vecs: seq<Vector>, assign: seq<nat>, cents: seq<Vector>, dim: nat, k: nat, n: nat)
    requires Shaped(vecs, dim) && Shaped(cents, dim) && k <= |cents| && n <= |vecs| && n <= |assign|
  {
    forall i :: 0 <= i < n ==> Nearest(vecs[i], cents, assign[i], k)
  }

  method AssignStep(vecs: seq<Vector>, assign0: seq<nat>, cents: seq<Vector>, dim: nat, k: nat)
    returns (assign: seq<nat>, changed: bool)
    requires Problem(vecs, assign0, cents, dim) && 0 < k <= |cents|
    ensures |assign| == |vecs| && InRange(assign, k) && AllNearest(vecs, assign, cents, dim, k, |vecs|)
    ensures changed <==> assign != assign0
  {
    assign, changed := assign0, false;
    for i := 0 to |vecs|
      invariant |assign| == |vecs| && AllNearest(vecs, assign, cents, dim, k, i)
      invariant forall j :: i <= j < |vecs| ==> assign[j] == assign0[j]
      invariant changed <==> assign[..i] != assign0[..i]
    {
      var best := NearestOf(vecs[i], cents, k);
      hide Nearest;
      ghost var before := assign;
      if assign[i] != best {
        assign, changed := assign[i := best], true;
      }
      assert assign[..i] == before[..i];
      assert assign[..i + 1] == assign[..i] + [best] && assign0[..i + 1] == assign0[..i] + [assign0[i]];
    }
    assert assign[..|vecs|] == assign && assign0[..|vecs|] == assign0;
  }

  /** A nearest assignment has the least error of all assignments. */
  lemma {:induction false} NearestMinimises(vecs: seq<Vector>, assign: seq<nat>, other: seq<nat>, cents: seq<Vector>,
                                            dim: nat, k: nat, n: nat)
    requires Problem(vecs, assign, cents, dim) && Problem(vecs, other, cents, dim) && k <= |cents| && n <= |vecs|
    requires AllNearest(vecs, assign, cents, dim, k, |vecs|) && InRange(other, k)
    ensures Error(vecs, assign, cents, dim, n) <= Error(vecs, other, cents, dim, n)
  {
    hide L2;
    if n > 0 {
      NearestMinimises(vecs, assign, other, cents, dim, k, n - 1);
      assert Nearest(vecs[n - 1], cents, assign[n - 1], k);
    }
  }

  // ---- Update step ----------------------------------------------------------------

  function Count(assign: seq<nat>, c: nat, n: nat): nat
    requires n <= |assign|
  {
    if n == 0 then 0 else Count(assign, c, n - 1) + if assign[n - 1] == c then 1 else 0
  }

  /** Sum of coordinate `d` over cluster `c`. */
  function Sum(vecs: seq<Vector>, assign: seq<nat>, dim: nat, c: nat, d: nat, n: nat): real
    requires Shaped(vecs, dim) && |assign| == |vecs| && n <= |vecs| && d < dim
  {
    if n == 0 then 0.0 else Sum(vecs, assign, dim, c, d, n - 1) + if assign[n - 1] == c then vecs[n - 1][d] else 0.0
  }

  function Plus(a: Vector, b: Vector): (r: Vector)
    requires |a| == |b|
    ensures |r| == |a| && forall d :: 0 <= d < |a| ==> r[d] == a[d] + b[d]
  {
    seq(|a|, d requires 0 <= d < |a| => a[d] + b[d])
  }

  function Over(a: Vector, n: nat): (r: Vector)
    requires n > 0
    ensures |r| == |a| && forall d :: 0 <= d < |a| ==> r[d] == a[d] / n as real
  {
    seq(|a|, d requires 0 <= d < |a| => a[d] / n as real)
  }

  /** Centroids below `k` hold the plain sums of the first `n` vectors. */
  ghost predicate Accumulated(vecs: seq<Vector>, assign: seq<nat>, cents: seq<Vector>, counts: seq<nat>, dim: nat,
                              k: nat, n: nat)
    requires Shaped(vecs, dim) && |assign| == |vecs| && n <= |vecs|
  {
    k <= |cents| && |counts| == k && Shaped(cents, dim) &&
    (forall c :: 0 <= c < k ==> counts[c] == Count(assign, c, n)) &&
    (forall c, d :: 0 <= c < k && 0 <= d < dim ==> cents[c][d] == Sum(vecs, assign, dim, c, d, n))
  }

  /** The mean of its cluster, scaled by the cluster's size, is the cluster's sum; empty clusters are at the origin. */
  ghost predicate IsMean(vecs: seq<Vector>, assign: seq<nat>, dim: nat, c: nat, m: Vector)
    requires Shaped(vecs, dim) && |assign| == |vecs|
  {
    |m| == dim &&
    forall d :: 0 <= d < dim ==>
      m[d] * Count(assign, c, |vecs|) as real == Sum(vecs, assign, dim, c, d, |vecs|) &&
      (Count(assign, c, |vecs|) == 0 ==> m[d] == 0.0)
  }

  method UpdateStep(vecs: seq<Vector>, assign: seq<nat>, cents0: seq<Vector>, dim: nat, k: nat)
    returns (cents: seq<Vector>)
    requires Shaped(vecs, dim) && Shaped(cents0, dim) && |assign| == |vecs| && InRange(assign, k) && k <= |cents0|
    ensures |cents| == |cents0| && Shaped(cents, dim) && cents[k..] == cents0[k..]
    ensures forall c :: 0 <= c < k ==> IsMean(vecs, assign, dim, c, cents[c])
  {
    var counts, sums := SumClusters(vecs, assign, cents0, dim, k);
    cents := sums;
    for c := 0 to k
      invariant |cents| == |cents0| && Shaped(cents, dim) && cents[k..] == cents0[k..]
      invariant forall b :: 0 <= b < c ==> IsMean(vecs, assign, dim, b, cents[b])
      invariant forall b :: c <= b < k ==> cents[b] == sums[b]
    {
      DivideGivesMean(vecs, assign, sums, counts, dim, k, c);
      hide IsMean, Accumulated;
      if counts[c] > 0 {
        cents := cents[c := Over(cents[c], counts[c])];
      }
    }
  }

  method SumClusters(vecs: seq<Vector>, assign: seq<nat>, cents0: seq<Vector>, dim: nat, k: nat)
    returns (counts: seq<nat>, cents: seq<Vector>)
    requires Shaped(vecs, dim) && Shaped(cents0, dim) && |assign| == |vecs| && InRange(assign, k) && k <= |cents0|
    ensures |cents| == |cents0| && cents[k..] == cents0[k..]
    ensures Accumulated(vecs, assign, cents, counts, dim, k, |vecs|)
  {
    counts := seq(k, _ => 0);
    cents := seq(k, _ => seq(dim, _ => 0.0)) + cents0[k..];
    for i := 0 to |vecs|
      invariant |cents| == |cents0| && cents[k..] == cents0[k..]
      invariant Accumulated(vecs, assign, cents, counts, dim, k, i)
    {
      var c := assign[i];
      counts := counts[c := counts[c] + 1];
      cents := cents[c := Plus(cents[c], vecs[i])];
    }
  }

  lemma DivideGivesMean(vecs: seq<Vector>, assign: seq<nat>, cents: seq<Vector>, counts: seq<nat>, dim: nat, k: nat,
                        c: nat)
    requires Shaped(vecs, dim) && |assign| == |vecs| && c < k
    requires Accumulated(vecs, assign, cents, counts, dim, k, |vecs|)
    ensures counts[c] > 0 ==> IsMean(vecs, assign, dim, c, Over(cents[c], counts[c]))
    ensures counts[c] == 0 ==> IsMean(vecs, assign, dim, c, cents[c])
  {
    var n := counts[c];
    forall d | 0 <= d < dim
      ensures n > 0 ==> cents[c][d] / n as real * n as real == cents[c][d]
      ensures n == 0 ==> Sum(vecs, assign, dim, c, d, |vecs|) == 0.0
    {
      if n > 0 { DivideAndMultiply(cents[c][d], n as real); } else { EmptyClusterSum(vecs, assign, dim, c, d, |vecs|); }
    }
  }

  lemma DivideAndMultiply(x: real, n: real)
    requires n != 0.0
    ensures x / n * n == x
  {
  }

  lemma {:induction false} EmptyClusterSum(vecs: seq<Vector>, assign: seq<nat>, dim: nat, c: nat, d: nat, n: nat)
    requires Shaped(vecs, dim) && |assign| == |vecs| && n <= |vecs| && d < dim && Count(assign, c, n) == 0
    ensures Sum(vecs, assign, dim, c, d, n) == 0.0
  {
    if n > 0 { EmptyClusterSum(vecs, assign, dim, c, d, n - 1); }
  }

  // ---- The mean is the best centroid -------------------------------------------------

  /** Squared error of cluster `c` along coordinate `d` for the value `y`. */
  function DimError(vecs: seq<Vector>, assign: seq<nat>, dim: nat, c: nat, d: nat, y: real, n: nat): real
    requires Shaped(vecs, dim) && |assign| == |vecs| && n <= |vecs| && d < dim
  {
    if n == 0 then 0.0
    else DimError(vecs, assign, dim, c, d, y, n - 1) + if assign[n - 1] == c then Square(vecs[n - 1][d] - y) else 0.0
  }

  function SquareSum(vecs: seq<Vector>, assign: seq<nat>, dim: nat, c: nat, d: nat, n: nat): real
    requires Shaped(vecs, dim) && |assign| == |vecs| && n <= |vecs| && d < dim
  {
    if n == 0 then 0.0
    else SquareSum(vecs, assign, dim, c, d, n - 1) + if assign[n - 1] == c then Square(vecs[n - 1][d]) else 0.0
  }

  lemma SquareOfDifference(x: real, y: real)
    ensures Square(x - y) == Square(x) - 2.0 * y * x + y * y
  {
  }

  lemma ScaleStep(y: real, s: real, x: real, k: real)
    ensures 2.0 * y * (s + x) == 2.0 * y * s + 2.0 * y * x
    ensures (k + 1.0) * y * y == k * y * y + y * y
  {
  }

  /** The error is a quadratic in `y` with the cluster size as leading coefficient. */
  lemma {:induction false} DimErrorQuadratic(vecs: seq<Vector>, assign: seq<nat>, dim: nat, c: nat, d: nat, y: real,
                                             n: nat)
    requires Shaped(vecs, dim) && |assign| == |vecs| && n <= |vecs| && d < dim
    ensures DimError(vecs, assign, dim, c, d, y, n) ==
            SquareSum(vecs, assign, dim, c, d, n) - 2.0 * y * Sum(vecs, assign, dim, c, d, n)
            + Count(assign, c, n) as real * y * y
  {
    hide Square;
    if n > 0 {
      DimErrorQuadratic(vecs, assign, dim, c, d, y, n - 1);
      var x := vecs[n - 1][d];
      SquareOfDifference(x, y);
      ScaleStep(y, Sum(vecs, assign, dim, c, d, n - 1), x, Count(assign, c, n - 1) as real);
    }
  }

  lemma QuadraticMinimum(q: real, s: real, k: real, m: real, y: real)
    requires k >= 0.0 && m * k == s
    ensures q - 2.0 * m * s + k * m * m <= q - 2.0 * y * s + k * y * y
  {
    calc {
      (q - 2.0 * y * s + k * y * y) - (q - 2.0 * m * s + k * m * m);
      k * y * y - 2.0 * y * (m * k) + 2.0 * m * (m * k) - k * m * m;
      k * Square(y - m);
    }
    NonNegativeProduct(k, Square(y - m));
  }

  lemma NonNegativeProduct(x: real, y: real)
    requires x >= 0.0 && y >= 0.0
    ensures x * y >= 0.0
  {
  }

  lemma MeanBestPerDim(vecs: seq<Vector>, assign: seq<nat>, dim: nat, c: nat, m: Vector, d: nat, y: real)
    requires Shaped(vecs, dim) && |assign| == |vecs| && d < dim && IsMean(vecs, assign, dim, c, m)
    ensures DimError(vecs, assign, dim, c, d, m[d], |vecs|) <= DimError(vecs, assign, dim, c, d, y, |vecs|)
  {
    hide DimError, Sum, Count, SquareSum;
    DimErrorQuadratic(vecs, assign, dim, c, d, m[d], |vecs|);
    DimErrorQuadratic(vecs, assign, dim, c, d, y, |vecs|);
    QuadraticMinimum(SquareSum(vecs, assign, dim, c, d, |vecs|), Sum(vecs, assign, dim, c, d, |vecs|),
                     Count(assign, c, |vecs|) as real, m[d], y);
  }

  /** Error of cluster `c` over the first `e` coordinates for centroid `x`. */
  function ClusterError(vecs: seq<Vector>, assign: seq<nat>, dim: nat, c: nat, x: Vector, e: nat, n: nat): real
    requires Shaped(vecs, dim) && |assign| == |vecs| && n <= |vecs| && e <= dim == |x|
  {
    if e == 0 then 0.0
    else ClusterError(vecs, assign, dim, c, x, e - 1, n) + DimError(vecs, assign, dim, c, e - 1, x[e - 1], n)
  }

  lemma {:induction false} ClusterErrorStep(vecs: seq<Vector>, assign: seq<nat>, dim: nat, c: nat, x: Vector, e: nat,
                                            n: nat)
    requires Shaped(vecs, dim) && |assign| == |vecs| && n < |vecs| && e <= dim == |x|
    ensures ClusterError(vecs, assign, dim, c, x, e, n + 1) ==
            ClusterError(vecs, assign, dim, c, x, e, n) + if assign[n] == c then L2Upto(vecs[n], x, e) else 0.0
  {
    hide Square;
    if e > 0 { ClusterErrorStep(vecs, assign, dim, c, x, e - 1, n); }
  }

  lemma {:induction false} MeanBestForCluster(vecs: seq<Vector>, assign: seq<nat>, dim: nat, c: nat, m: Vector,
                                              x: Vector, e: nat)
    requires Shaped(vecs, dim) && |assign| == |vecs| && e <= dim == |x| && IsMean(vecs, assign, dim, c, m)
    ensures ClusterError(vecs, assign, dim, c, m, e, |vecs|) <= ClusterError(vecs, assign, dim, c, x, e, |vecs|)
  {
    hide DimError;
    if e > 0 {
      MeanBestForCluster(vecs, assign, dim, c, m, x, e - 1);
      MeanBestPerDim(vecs, assign, dim, c, m, e - 1, x[e - 1]);
    }
  }

  /** Errors of the first `k` clusters together. */
  function ClustersError(vecs: seq<Vector>, assign: seq<nat>, cents: seq<Vector>, dim: nat, k: nat, n: nat): real
    requires Shaped(vecs, dim) && Shaped(cents, dim) && |assign| == |vecs| && n <= |vecs| && k <= |cents|
  {
    if k == 0 then 0.0
    else
      ClustersError(vecs, assign, cents, dim, k - 1, n) +
      ClusterError(vecs, assign, dim, k - 1, cents[k - 1], dim, n)
  }

  lemma {:induction false} ClustersErrorStart(vecs: seq<Vector>, assign: seq<nat>, cents: seq<Vector>, dim: nat, k: nat)
    requires Shaped(vecs, dim) && Shaped(cents, dim) && |assign| == |vecs| && k <= |cents|
    ensures ClustersError(vecs, assign, cents, dim, k, 0) == 0.0
  {
    if k > 0 {
      ClustersErrorStart(vecs, assign, cents, dim, k - 1);
      ClusterErrorStart(vecs, assign, dim, k - 1, cents[k - 1], dim);
    }
  }

  lemma {:induction false} ClusterErrorStart(vecs: seq<Vector>, assign: seq<nat>, dim: nat, c: nat, x: Vector, e: nat)
    requires Shaped(vecs, dim) && |assign| == |vecs| && e <= dim == |x|
    ensures ClusterError(vecs, assign, dim, c, x, e, 0) == 0.0
  {
    if e > 0 { ClusterErrorStart(vecs, assign, dim, c, x, e - 1); }
  }

  lemma {:induction false} ClustersErrorStep(vecs: seq<Vector>, assign: seq<nat>, cents: seq<Vector>, dim: nat, k: nat,
                                             n: nat)
    requires Problem(vecs, assign, cents, dim) && n < |vecs| && k <= |cents|
    ensures ClustersError(vecs, assign, cents, dim, k, n + 1) ==
            ClustersError(vecs, assign, cents, dim, k, n) + if assign[n] < k then L2(vecs[n], cents[assign[n]]) else 0.0
  {
    hide ClusterError;
    if k > 0 {
      ClustersErrorStep(vecs, assign, cents, dim, k - 1, n);
      ClusterErrorStep(vecs, assign, dim, k - 1, cents[k - 1], dim, n);
    }
  }

  /** Summing by vector and summing by cluster and coordinate agree. */
  lemma {:induction false} ErrorByClusters(vecs: seq<Vector>, assign: seq<nat>, cents: seq<Vector>, dim: nat, k: nat,
                                           n: nat)
    requires Problem(vecs, assign, cents, dim) && n <= |vecs| && k <= |cents| && InRange(assign, k)
    ensures Error(vecs, assign, cents, dim, n) == ClustersError(vecs, assign, cents, dim, k, n)
  {
    hide ClustersError, L2;
    if n == 0 {
      ClustersErrorStart(vecs, assign, cents, dim, k);
    } else {
      ErrorByClusters(vecs, assign, cents, dim, k, n - 1);
      ClustersErrorStep(vecs, assign, cents, dim, k, n - 1);
    }
  }

  lemma {:induction false} MeansBestForClusters(vecs: seq<Vector>, assign: seq<nat>, cents: seq<Vector>,
                                                other: seq<Vector>, dim: nat, k: nat)
    requires Shaped(vecs, dim) && Shaped(cents, dim) && Shaped(other, dim)
    requires |assign| == |vecs| && k <= |cents| && k <= |other|
    requires forall c :: 0 <= c < k ==> IsMean(vecs, assign, dim, c, cents[c])
    ensures ClustersError(vecs, assign, cents, dim, k, |vecs|) <= ClustersError(vecs, assign, other, dim, k, |vecs|)
  {
    hide ClusterError, IsMean;
    if k > 0 {
      MeansBestForClusters(vecs, assign, cents, other, dim, k - 1);
      MeanBestForCluster(vecs, assign, dim, k - 1, cents[k - 1], other[k - 1], dim);
    }
  }

  /** For a fixed assignment the cluster means have the least error of all centroids. */
  lemma MeansMinimise(vecs: seq<Vector>, assign: seq<nat>, cents: seq<Vector>, other: seq<Vector>, dim: nat, k: nat)
    requires Problem(vecs, assign, cents, dim) && Problem(vecs, assign, other, dim)
    requires k <= |cents| && k <= |other| && InRange(assign, k)
    requires forall c :: 0 <= c < k ==> IsMean(vecs, assign, dim, c, cents[c])
    ensures TotalError(vecs, assign, cents, dim) <= TotalError(vecs, assign, other, dim)
  {
    hide Error, ClustersError, IsMean;
    ErrorByClusters(vecs, assign, cents, dim, k, |vecs|);
    ErrorByClusters(vecs, assign, other, dim, k, |vecs|);
    MeansBestForClusters(vecs, assign, cents, other, dim, k);
  }

  // ---- Training ------------------------------------------------------------------------

  /** The starting centroids: the first vectors, repeated cyclically when there are too few. */
  function Initial(vecs: seq<Vector>, numCentroids: nat): (cents: seq<Vector>)
    requires vecs != []
    ensures |cents| == numCentroids
  {
    seq(numCentroids, c requires 0 <= c => vecs[c % |vecs|])
  }

  datatype Clustering = Clustering(assign: seq<nat>, cents: seq<Vector>)

  /** From `x` to `y` every vector moved to its nearest centroid. */
  ghost predicate Assigns(vecs: seq<Vector>, x: Clustering, y: Clustering, dim: nat, k: nat)
    requires Problem(vecs, y.assign, y.cents, dim) && k <= |y.cents|
  {
    y.cents == x.cents && InRange(y.assign, k) && AllNearest(vecs, y.assign, y.cents, dim, k, |vecs|)
  }

  /** From `x` to `y` every used centroid moved to the mean of its vectors. */
  ghost predicate Updates(vecs: seq<Vector>, x: Clustering, y: Clustering, dim: nat, k: nat)
    requires Problem(vecs, y.assign, y.cents, dim) && k <= |y.cents| == |x.cents|
  {
    && y.assign == x.assign && y.cents[k..] == x.cents[k..]
    && forall c :: 0 <= c < k ==> IsMean(vecs, y.assign, dim, c, y.cents[c])
  }

  ghost predicate WellPosed(vecs: seq<Vector>, x: Clustering, dim: nat, n: nat) {
    Problem(vecs, x.assign, x.cents, dim) && |x.cents| == n
  }

  ghost function ErrorOf(vecs: seq<Vector>, x: Clustering, dim: nat): real
    requires Problem(vecs, x.assign, x.cents, dim)
  {
    TotalError(vecs, x.assign, x.cents, dim)
  }

  /** Step `i` of the descent: assignments and updates take turns, and neither raises the error. */
  ghost predicate StepDown(vecs: seq<Vector>, x: Clustering, y: Clustering, dim: nat, n: nat, k: nat, i: nat)
    requires k <= n
  {
    && WellPosed(vecs, x, dim, n) && WellPosed(vecs, y, dim, n)
    && (i % 2 == 0 ==> Assigns(vecs, x, y, dim, k))
    && (i % 2 == 1 ==> Updates(vecs, x, y, dim, k))
    && ErrorOf(vecs, y, dim) <= ErrorOf(vecs, x, dim)
  }

  ghost predicate Descent(vecs: seq<Vector>, states: seq<Clustering>, dim: nat, n: nat, k: nat)
    requires k <= n
  {
    && states != [] && WellPosed(vecs, states[|states| - 1], dim, n)
    && forall i :: 0 <= i < |states| - 1 ==> StepDown(vecs, states[i], states[i + 1], dim, n, k, i)
  }

  lemma DescentGrows(vecs: seq<Vector>, states: seq<Clustering>, y: Clustering, dim: nat, n: nat, k: nat)
    requires k <= n && Descent(vecs, states, dim, n, k)
    requires StepDown(vecs, states[|states| - 1], y, dim, n, k, |states| - 1)
    ensures Descent(vecs, states + [y], dim, n, k)
  {
    hide StepDown, WellPosed;
    var longer := states + [y];
    assert WellPosed(vecs, y, dim, n) by { StepWellPosed(vecs, states[|states| - 1], y, dim, n, k, |states| - 1); }
    forall i | 0 <= i < |longer| - 1
      ensures StepDown(vecs, longer[i], longer[i + 1], dim, n, k, i)
    {
      assert i < |states| - 1 ==> longer[i + 1] == states[i + 1];
    }
  }

  lemma StepWellPosed(vecs: seq<Vector>, x: Clustering, y: Clustering, dim: nat, n: nat, k: nat, i: nat)
    requires k <= n && StepDown(vecs, x, y, dim, n, k, i)
    ensures WellPosed(vecs, y, dim, n)
  {
  }

  /** The descent ended because an assignment changed nothing, or because of the limit on iterations. */
  ghost predicate Settled(states: seq<Clustering>) {
    || |states| == 2 * MAX_ITERS + 1
    || (1 < |states| <= 2 * MAX_ITERS && |states| % 2 == 0 && states[|states| - 1] == states[|states| - 2])
  }

  /** One segment. `states` are the clusterings before the first step and after each step. */
  method TrainSegment(vecs: seq<Vector>, dim: nat, numCentroids: nat)
    returns (cents: seq<Vector>, assign: seq<nat>, ghost states: seq<Clustering>)
    requires vecs != [] && Shaped(vecs, dim) && numCentroids > 0
    ensures |cents| == numCentroids && Problem(vecs, assign, cents, dim)
    ensures Descent(vecs, states, dim, numCentroids, if numCentroids < |vecs| then numCentroids else |vecs|)
    ensures states[0].cents == Initial(vecs, numCentroids) && states[|states| - 1] == Clustering(assign, cents)
    ensures Settled(states)
    ensures forall a :: |a| == |vecs| && InRange(a, if numCentroids < |vecs| then numCentroids else |vecs|) ==>
      Problem(vecs, a, Initial(vecs, numCentroids), dim) &&
      TotalError(vecs, assign, cents, dim) <= TotalError(vecs, a, Initial(vecs, numCentroids), dim)
  {
    hide Error, IsMean, Nearest, Descent, StepDown, AllNearest, Initial, BelowInitial;
    InitialShaped(vecs, dim, numCentroids);
    var k := if numCentroids < |vecs| then numCentroids else |vecs|;
    cents := Initial(vecs, numCentroids);
    ghost var initial := cents;
    assign := seq(|vecs|, _ => 0);
    states := [Clustering(assign, cents)];
    DescentStarts(vecs, states[0], dim, numCentroids, k);
    var iter, running := 0, true;
    while iter < MAX_ITERS && running
      invariant iter <= MAX_ITERS && |cents| == numCentroids && |assign| == |vecs| && InRange(assign, k)
      invariant Problem(vecs, assign, cents, dim)
      invariant Descent(vecs, states, dim, numCentroids, k)
      invariant |states| == if running then 2 * iter + 1 else 2 * iter
      invariant !running ==> iter > 0 && states[|states| - 1] == states[|states| - 2]
      invariant states[0].cents == initial && states[|states| - 1] == Clustering(assign, cents)
      invariant iter == 0 ==> cents == initial && running && |states| == 1
      invariant iter > 0 ==> BelowInitial(vecs, assign, cents, initial, dim, k)
    {
      assign, cents, running, states := Iterate(vecs, assign, cents, dim, k, states, initial);
      iter := iter + 1;
    }
    BelowAll(vecs, assign, cents, initial, dim, k);
  }

  lemma InitialShaped(vecs: seq<Vector>, dim: nat, numCentroids: nat)
    requires vecs != [] && Shaped(vecs, dim)
    ensures Shaped(Initial(vecs, numCentroids), dim)
  {
  }

  lemma BelowAll(vecs: seq<Vector>, assign: seq<nat>, cents: seq<Vector>, initial: seq<Vector>, dim: nat, k: nat)
    requires Problem(vecs, assign, cents, dim) && Shaped(initial, dim) && k <= |initial|
    requires BelowInitial(vecs, assign, cents, initial, dim, k)
    ensures forall a :: |a| == |vecs| && InRange(a, k) ==> Problem(vecs, a, initial, dim)
    ensures forall a :: |a| == |vecs| && InRange(a, k) ==>
      TotalError(vecs, assign, cents, dim) <= TotalError(vecs, a, initial, dim)
  {
    hide Error;
  }

  /** One round: an assignment, and an update if the assignment changed anything. */
  method Iterate(vecs: seq<Vector>, assign0: seq<nat>, cents0: seq<Vector>, dim: nat, k: nat,
                 ghost states0: seq<Clustering>, ghost initial: seq<Vector>)
    returns (assign: seq<nat>, cents: seq<Vector>, changed: bool, ghost states: seq<Clustering>)
    requires Problem(vecs, assign0, cents0, dim) && 0 < k <= |cents0| == |initial| && InRange(assign0, k)
    requires Shaped(initial, dim) && Descent(vecs, states0, dim, |cents0|, k) && |states0| % 2 == 1
    requires states0[|states0| - 1] == Clustering(assign0, cents0)
    requires cents0 == initial || BelowInitial(vecs, assign0, cents0, initial, dim, k)
    ensures Problem(vecs, assign, cents, dim) && |cents| == |cents0| && InRange(assign, k)
    ensures Descent(vecs, states, dim, |cents|, k) && states0 <= states
    ensures |states| == |states0| + (if changed then 2 else 1)
    ensures states[|states| - 1] == Clustering(assign, cents)
    ensures !changed ==> states[|states| - 1] == states[|states| - 2]
    ensures BelowInitial(vecs, assign, cents, initial, dim, k)
  {
    hide Error, IsMean, Nearest, Descent, StepDown, AllNearest;
    var n := |cents0|;
    cents := cents0;
    assign, changed := AssignStep(vecs, assign0, cents, dim, k);
    AssignStepDown(vecs, Clustering(assign0, cents), Clustering(assign, cents), dim, n, k, |states0| - 1);
    DescentGrows(vecs, states0, Clustering(assign, cents), dim, n, k);
    states := states0 + [Clustering(assign, cents)];
    NotAbove(vecs, Clustering(assign0, cents), Clustering(assign, cents), dim, n, k, |states0| - 1);
    FirstAssignment(vecs, assign, cents, initial, dim, k);
    if changed {
      cents := UpdateStep(vecs, assign, cents, dim, k);
      UpdateStepDown(vecs, Clustering(assign, cents0), Clustering(assign, cents), dim, n, k, |states0|);
      DescentGrows(vecs, states, Clustering(assign, cents), dim, n, k);
      states := states + [Clustering(assign, cents)];
      NotAbove(vecs, Clustering(assign, cents0), Clustering(assign, cents), dim, n, k, |states0|);
    }
  }

  /** An assignment to the initial centroids is no worse than any other. */
  lemma FirstAssignment(vecs: seq<Vector>, assign: seq<nat>, cents: seq<Vector>, initial: seq<Vector>, dim: nat, k: nat)
    requires Problem(vecs, assign, cents, dim) && k <= |cents| == |initial| && Shaped(initial, dim)
    requires AllNearest(vecs, assign, cents, dim, k, |vecs|)
    ensures cents == initial ==> BelowInitial(vecs, assign, cents, initial, dim, k)
  {
    hide Error, AllNearest;
    if cents == initial {
      forall a | |a| == |vecs| && InRange(a, k)
        ensures TotalError(vecs, assign, cents, dim) <= TotalError(vecs, a, initial, dim)
      {
        NearestMinimises(vecs, assign, a, initial, dim, k, |vecs|);
      }
    }
  }

  lemma DescentStarts(vecs: seq<Vector>, x: Clustering, dim: nat, n: nat, k: nat)
    requires k <= n && WellPosed(vecs, x, dim, n)
    ensures Descent(vecs, [x], dim, n, k)
  {
  }

  lemma NotAbove(vecs: seq<Vector>, x: Clustering, y: Clustering, dim: nat, n: nat, k: nat, i: nat)
    requires k <= n && StepDown(vecs, x, y, dim, n, k, i)
    ensures Problem(vecs, x.assign, x.cents, dim) && Problem(vecs, y.assign, y.cents, dim)
    ensures TotalError(vecs, y.assign, y.cents, dim) <= TotalError(vecs, x.assign, x.cents, dim)
  {
  }

  lemma AssignStepDown(vecs: seq<Vector>, x: Clustering, y: Clustering, dim: nat, n: nat, k: nat, i: nat)
    requires k <= n && i % 2 == 0 && WellPosed(vecs, x, dim, n) && WellPosed(vecs, y, dim, n) && InRange(x.assign, k)
    requires Assigns(vecs, x, y, dim, k)
    ensures StepDown(vecs, x, y, dim, n, k, i)
  {
    hide Error, AllNearest;
    NearestMinimises(vecs, y.assign, x.assign, y.cents, dim, k, |vecs|);
  }

  lemma UpdateStepDown(vecs: seq<Vector>, x: Clustering, y: Clustering, dim: nat, n: nat, k: nat, i: nat)
    requires k <= n && i % 2 == 1 && WellPosed(vecs, x, dim, n) && WellPosed(vecs, y, dim, n) && InRange(x.assign, k)
    requires Updates(vecs, x, y, dim, k)
    ensures StepDown(vecs, x, y, dim, n, k, i)
  {
    hide Error, IsMean;
    MeansMinimise(vecs, y.assign, y.cents, x.cents, dim, k);
  }

  /** No assignment to the initial centroids has a smaller error. */
  ghost predicate BelowInitial(vecs: seq<Vector>, assign: seq<nat>, cents: seq<Vector>, initial: seq<Vector>,
                               dim: nat, k: nat)
    requires Problem(vecs, assign, cents, dim) && Shaped(initial, dim) && k <= |initial|
  {
    forall a :: |a| == |vecs| && InRange(a, k) ==>
      TotalError(vecs, assign, cents, dim) <= TotalError(vecs, a, initial, dim)
  }
}
