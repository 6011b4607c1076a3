/** Training of an inverted-file index: k-means by similarity, then the lists. */
module IvfTraining {
  import opened SquaredDistance
  import opened Lloyd
  import InvertedFile

  const MAX_ROUNDS := 15

  /** How alike two vectors are; any function will do. */
  type Similarity = Vector -> (Vector -> real)

  /** `c` is the first of the centroids most similar to `v`. */
  ghost predicate MostSimilar(v: Vector, cents: seq<Vector>, c: nat, n: nat, sim: Similarity)
    requires n <= |cents|
  {
    && c < n && (forall b :: 0 <= b < n ==> sim(v)(cents[b]) <= sim(v)(cents[c]))
    && (forall b :: 0 <= b < c ==> sim(v)(cents[b]) < sim(v)(cents[c]))
  }

  method NearestCentroid(v: Vector, cents: seq<Vector>, sim: Similarity) returns (best: nat)
    requires cents != []
    ensures MostSimilar(v, cents, best, |cents|, sim)
  {
    best := 0;
    for c := 1 to |cents|
      invariant MostSimilar(v, cents, best, c, sim)
    {
      if sim(v)(cents[c]) > sim(v)(cents[best]) {
        best := c;
      }
    }
  }

  ghost predicate AllMostSimilar(vecs: seq<Vector>, assign: seq<nat>, cents: seq<Vector>, n: nat, sim: Similarity)
    requires n <= |vecs| == |assign|
  {
    forall i :: 0 <= i < n ==> MostSimilar(vecs[i], cents, assign[i], |cents|, sim)
  }

  method AssignAll(vecs: seq<Vector>, assign0: seq<nat>, cents: seq<Vector>, sim: Similarity)
    returns (assign: seq<nat>, changed: bool)
    requires |assign0| == |vecs| && cents != []
    ensures |assign| == |vecs| && AllMostSimilar(vecs, assign, cents, |vecs|, sim)
    ensures changed <==> assign != assign0
  {
    assign, changed := assign0, false;
    for i := 0 to |vecs|
      invariant |assign| == |vecs| && AllMostSimilar(vecs, assign, cents, i, sim)
      invariant assign[i..] == assign0[i..] && (changed <==> assign[..i] != assign0[..i])
    {
      var best := NearestCentroid(vecs[i], cents, sim);
      assert assign[i] == assign[i..][0] == assign0[i..][0] == assign0[i];
      ghost var before := assign;
      if assign[i] != best {
        assign := assign[i := best];
        changed := true;
      }
      PrefixesDiffer(before, assign, assign0, i);
      assert forall j :: 0 <= j < i ==> assign[j] == before[j];
    }
    assert assign[..|vecs|] == assign && assign0[..|vecs|] == assign0;
  }

  lemma PrefixesDiffer(before: seq<nat>, after: seq<nat>, original: seq<nat>, i: nat)
    requires i < |before| == |after| == |original| && before[i..] == original[i..] && after == before[i := after[i]]
    ensures after[i + 1..] == original[i + 1..]
    ensures after[..i + 1] != original[..i + 1] <==> before[..i] != original[..i] || after[i] != original[i]
  {
    assert after[i + 1..] == before[i + 1..] == before[i..][1..] == original[i..][1..];
    assert after[..i + 1] == before[..i] + [after[i]] && original[..i + 1] == original[..i] + [original[i]];
  }

  function Stride(n: nat, clusters: nat): nat
    requires clusters > 0
  {
    if n > clusters then n / clusters else 1
  }

  /** Evenly spaced vectors. */
  function Seeds(vecs: seq<Vector>, clusters: nat): (cents: seq<Vector>)
    requires vecs != [] && clusters > 0
    ensures |cents| == clusters && forall c :: 0 <= c < clusters ==> cents[c] in vecs
  {
    seq(clusters, c requires 0 <= c < clusters => vecs[(c * Stride(|vecs|, clusters)) % |vecs|])
  }

  /** The stride is the greatest that lets all seeds fall inside. */
  lemma StrideExact(n: nat, clusters: nat)
    requires 0 < clusters <= n
    ensures clusters * Stride(n, clusters) <= n < clusters * (Stride(n, clusters) + 1) && Stride(n, clusters) >= 1
  {
    if n > clusters {
      var q := n / clusters;
      assert n == clusters * q + n % clusters;
      assert clusters * (q + 1) == clusters * q + clusters;
      assert q >= 1;
    } else {
      assert clusters * 1 == n && clusters * 2 == n + n;
    }
  }

  lemma {:induction false} TimesLess(a: nat, b: nat, s: nat)
    requires a < b && s > 0
    ensures a * s < b * s
  {
    if s > 1 {
      TimesLess(a, b, s - 1);
      assert a * s == a * (s - 1) + a && b * s == b * (s - 1) + b;
    }
  }

  lemma SmallModulo(x: nat, n: nat)
    requires x < n
    ensures x % n == x
  {
  }

  /** With no more clusters than vectors, the seeds are taken at equal distances, from the first vector on. */
  lemma SeedsSpaced(vecs: seq<Vector>, clusters: nat, c: nat)
    requires 0 < clusters <= |vecs| && c < clusters
    ensures c * Stride(|vecs|, clusters) < |vecs|
    ensures Seeds(vecs, clusters)[c] == vecs[c * Stride(|vecs|, clusters)]
  {
    hide Stride;
    StrideExact(|vecs|, clusters);
    TimesLess(c, clusters, Stride(|vecs|, clusters));
    SmallModulo(c * Stride(|vecs|, clusters), |vecs|);
  }

  /** One round: `after` are the means of an assignment of every vector to its most similar centroid of `before`. */
  ghost predicate Round(vecs: seq<Vector>, before: seq<Vector>, after: seq<Vector>, dim: nat, sim: Similarity)
    requires Shaped(vecs, dim)
  {
    && Shaped(before, dim) && Shaped(after, dim)
    && exists assign: seq<nat> :: |assign| == |vecs| && AllMostSimilar(vecs, assign, before, |vecs|, sim)
                                  && AllMeans(vecs, assign, after, dim)
  }

  /** The centroids of all rounds, from the seeds on. */
  ghost predicate Trail(vecs: seq<Vector>, trail: seq<seq<Vector>>, dim: nat, clusters: nat, sim: Similarity)
    requires vecs != [] && Shaped(vecs, dim) && clusters > 0
  {
    && trail != [] && trail[0] == Seeds(vecs, clusters)
    && forall i :: 0 <= i < |trail| - 1 ==> Round(vecs, trail[i], trail[i + 1], dim, sim)
  }

  ghost predicate AllMeans(vecs: seq<Vector>, assign: seq<nat>, cents: seq<Vector>, dim: nat)
    requires |assign| == |vecs| && Shaped(vecs, dim) && Shaped(cents, dim)
  {
    forall c :: 0 <= c < |cents| ==> IsMean(vecs, assign, dim, c, cents[c])
  }

  /** How the rounds ended. If they settled, no vector would move. Unless that was in the first round, every
      centroid is the mean of its vectors, so that settling later is a fixed point of both steps. */
  ghost predicate Clustered(vecs: seq<Vector>, assign: seq<nat>, cents: seq<Vector>, dim: nat, sim: Similarity,
                            rounds: nat, settled: bool)
    requires |assign| == |vecs| && Shaped(vecs, dim) && Shaped(cents, dim)
  {
    && (settled ==> AllMostSimilar(vecs, assign, cents, |vecs|, sim))
    && ((settled && rounds == 1) || AllMeans(vecs, assign, cents, dim))
  }

  /** Rounds of assignment and update until an assignment changes nothing, or the limit on rounds is reached. */
  method KMeans(vecs: seq<Vector>, dim: nat, clusters: nat, sim: Similarity)
    returns (assign: seq<nat>, cents: seq<Vector>, rounds: nat, settled: bool, ghost trail: seq<seq<Vector>>)
    requires vecs != [] && Shaped(vecs, dim) && clusters > 0
    ensures |assign| == |vecs| && |cents| == clusters && InRange(assign, clusters) && Shaped(cents, dim)
    ensures 0 < rounds <= MAX_ROUNDS && (!settled ==> rounds == MAX_ROUNDS)
    ensures Clustered(vecs, assign, cents, dim, sim, rounds, settled)
    ensures Trail(vecs, trail, dim, clusters, sim) && trail[|trail| - 1] == cents
    ensures |trail| == if settled then rounds else rounds + 1
  {
    hide Round;
    hide IsMean, Seeds, AllMostSimilar;
    cents := Seeds(vecs, clusters);
    assert Shaped(cents, dim);
    assign := seq(|vecs|, _ => 0);
    rounds, settled, trail := 0, false, [cents];
    while rounds < MAX_ROUNDS && !settled
      invariant rounds <= MAX_ROUNDS && (settled ==> rounds > 0)
      invariant |assign| == |vecs| && |cents| == clusters && InRange(assign, clusters) && Shaped(cents, dim)
      invariant rounds > 0 ==> Clustered(vecs, assign, cents, dim, sim, rounds, settled)
      invariant Trail(vecs, trail, dim, clusters, sim) && trail[|trail| - 1] == cents
      invariant |trail| == if settled then rounds else rounds + 1
      decreases MAX_ROUNDS - rounds
    {
      var changed;
      assign, changed := AssignAll(vecs, assign, cents, sim);
      InRangeIfSimilar(vecs, assign, cents, sim);
      if changed {
        ghost var before := cents;
        cents := UpdateStep(vecs, assign, cents, dim, clusters);
        RoundDone(vecs, assign, before, cents, dim, sim);
        trail := trail + [cents];
      } else {
        settled := true;
      }
      rounds := rounds + 1;
    }
  }

  lemma RoundDone(vecs: seq<Vector>, assign: seq<nat>, before: seq<Vector>, after: seq<Vector>, dim: nat,
                  sim: Similarity)
    requires Shaped(vecs, dim) && Shaped(before, dim) && Shaped(after, dim) && |assign| == |vecs|
    requires AllMostSimilar(vecs, assign, before, |vecs|, sim) && AllMeans(vecs, assign, after, dim)
    ensures Round(vecs, before, after, dim, sim)
  {
    hide AllMostSimilar, AllMeans;
  }

  lemma InRangeIfSimilar(vecs: seq<Vector>, assign: seq<nat>, cents: seq<Vector>, sim: Similarity)
    requires |assign| == |vecs| && AllMostSimilar(vecs, assign, cents, |vecs|, sim)
    ensures InRange(assign, |cents|)
  {
  }

  /** Clusters the vectors and builds the lists; `air` scores a cluster for a vector, given the centroids. */
  method TrainRairs(vecs: seq<Vector>, dim: nat, numClusters: nat, redundancy: nat, sim: Similarity,
                    air: seq<Vector> -> (nat -> (nat -> real)))
    returns (index: InvertedFile.Index, assign: seq<nat>, cents: seq<Vector>, rounds: nat, settled: bool,
             ghost trail: seq<seq<Vector>>)
    requires vecs != [] && Shaped(vecs, dim) && numClusters > 0
    ensures |assign| == |vecs| && Shaped(cents, dim)
    ensures Clustered(vecs, assign, cents, dim, sim, rounds, settled)
    ensures 0 < rounds <= MAX_ROUNDS && (!settled ==> rounds == MAX_ROUNDS)
    ensures |cents| > 0 && Trail(vecs, trail, dim, |cents|, sim) && trail[|trail| - 1] == cents
    ensures |trail| == if settled then rounds else rounds + 1
    ensures InvertedFile.Trained(index, assign)
    ensures index.clusters == |cents| == if numClusters < |vecs| then numClusters else |vecs|
    ensures redundancy == 0 ==> index.redundancy == 1
    ensures 0 < redundancy <= index.clusters ==> index.redundancy == redundancy
    ensures redundancy > index.clusters ==> index.redundancy == index.clusters
  {
    hide Clustered, InvertedFile.Trained, Trail;
    var clusters := if numClusters < |vecs| then numClusters else |vecs|;
    var rf := InvertedFile.Clamp(redundancy, 1, clusters);
    assign, cents, rounds, settled, trail := KMeans(vecs, dim, clusters, sim);
    index := InvertedFile.BuildIndex(assign, clusters, rf, air(cents));
  }
}
