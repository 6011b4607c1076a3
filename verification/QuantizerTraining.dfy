/** Training of the whole quantiser: one segment after another, written to a flat codebook. */
module QuantizerTraining {
  import opened SquaredDistance
  import opened Quantizer
  import opened Lloyd

  /** The centroids of one segment as the codebook stores them. */
  function Block(q: ProductQuantizer, sv: nat): (cents: seq<Vector>)
    requires q.Valid() && sv < q.subvectors
    ensures |cents| == q.centroids && Shaped(cents, q.subDim)
  {
    seq(q.centroids, c requires 0 <= c < q.centroids => Centroid(q, sv, c))
  }

  function Flat(cents: seq<Vector>, dim: nat, n: nat): (r: seq<real>)
    requires Shaped(cents, dim) && n <= |cents|
    ensures |r| == n * dim
  {
    if n == 0 then [] else Flat(cents, dim, n - 1) + cents[n - 1]
  }

  lemma {:induction false} FlatSlice(cents: seq<Vector>, dim: nat, n: nat, c: nat)
    requires Shaped(cents, dim) && c < n <= |cents|
    ensures 0 <= c * dim <= c * dim + dim <= n * dim
    ensures Flat(cents, dim, n)[c * dim..c * dim + dim] == cents[c]
  {
    assert n * dim == (n - 1) * dim + dim;
    if c == n - 1 {
      assert |Flat(cents, dim, n - 1)| == c * dim;
    } else {
      FlatSlice(cents, dim, n - 1, c);
      assert Flat(cents, dim, n)[c * dim..c * dim + dim] == Flat(cents, dim, n - 1)[c * dim..c * dim + dim];
    }
  }

  /** The codebook built so far ends in the block of `cents`, so that block reads back as `cents`. */
  lemma CentroidAt(q: ProductQuantizer, sv: nat, c: nat, start: nat)
    requires q.Valid() && sv < q.subvectors && c < q.centroids && start == sv * q.centroids * q.subDim
    ensures 0 <= c * q.subDim && start + c * q.subDim + q.subDim <= |q.codebook|
    ensures Centroid(q, sv, c) == q.codebook[start + c * q.subDim..start + c * q.subDim + q.subDim]
  {
    SlotBounds(q, sv, c);
  }

  lemma BlockReadsBack(q: ProductQuantizer, sv: nat, cents: seq<Vector>, before: seq<real>, after: seq<real>)
    requires q.Valid() && sv < q.subvectors && |cents| == q.centroids && Shaped(cents, q.subDim)
    requires |before| == sv * q.centroids * q.subDim && q.codebook == before + Flat(cents, q.subDim, |cents|) + after
    ensures Block(q, sv) == cents
  {
    hide Flat, Centroid;
    forall c | 0 <= c < q.centroids
      ensures Centroid(q, sv, c) == cents[c]
    {
      CentroidAt(q, sv, c, |before|);
      FlatSlice(cents, q.subDim, |cents|, c);
      SliceOfMiddle(before, Flat(cents, q.subDim, |cents|), after, c * q.subDim, q.subDim);
    }
  }

  lemma SliceOfMiddle(a: seq<real>, b: seq<real>, c: seq<real>, i: nat, n: nat)
    requires i + n <= |b|
    ensures (a + b + c)[|a| + i..|a| + i + n] == b[i..i + n]
  {
  }

  function Segments(vectors: seq<Vector>, dim: nat, subDim: nat, sv: nat): (r: seq<Vector>)
    requires Shaped(vectors, dim) && sv * subDim + subDim <= dim
    ensures |r| == |vectors| && Shaped(r, subDim)
  {
    seq(|vectors|, i requires 0 <= i < |vectors| => vectors[i][sv * subDim..sv * subDim + subDim])
  }

  /** The block of segment `sv` is what a settled descent from the starting centroids ended in. */
  ghost predicate SegmentTrained(q: ProductQuantizer, vectors: seq<Vector>, sv: nat)
    requires q.Valid() && sv < q.subvectors && vectors != [] && Shaped(vectors, q.Dim())
  {
    SegmentBounds(q, sv);
    var vecs := Segments(vectors, q.Dim(), q.subDim, sv);
    WellTrained(vecs, Block(q, sv), q.subDim, q.centroids)
  }

  function Used(vecs: seq<Vector>, numCentroids: nat): nat { if numCentroids < |vecs| then numCentroids else |vecs| }

  /** `states` is a settled descent from the starting centroids to `cents`, and its last error is no larger than
      that of any assignment to the starting centroids. */
  ghost predicate Trains(vecs: seq<Vector>, cents: seq<Vector>, dim: nat, n: nat, states: seq<Clustering>)
    requires vecs != [] && Shaped(vecs, dim)
  {
    && Descent(vecs, states, dim, n, Used(vecs, n)) && Settled(states)
    && states[0].cents == Initial(vecs, n) && states[|states| - 1].cents == cents
    && forall a :: |a| == |vecs| && InRange(a, Used(vecs, n)) ==>
         Problem(vecs, a, Initial(vecs, n), dim) &&
         ErrorOf(vecs, states[|states| - 1], dim) <= TotalError(vecs, a, Initial(vecs, n), dim)
  }

  ghost predicate WellTrained(vecs: seq<Vector>, cents: seq<Vector>, dim: nat, n: nat)
    requires vecs != [] && Shaped(vecs, dim)
  {
    exists states :: Trains(vecs, cents, dim, n, states)
  }

  method Train(vectors: seq<Vector>, dim: nat, subvectors: nat, centroids: nat) returns (q: ProductQuantizer)
    requires vectors != [] && Shaped(vectors, dim) && subvectors > 0 && dim % subvectors == 0 && 0 < centroids <= 256
    ensures q.Valid() && q.subvectors == subvectors && q.centroids == centroids && q.Dim() == dim
    ensures forall sv :: 0 <= sv < subvectors ==> SegmentTrained(q, vectors, sv)
  {
    hide WellTrained, Centroid, Segments;
    var subDim := dim / subvectors;
    assert subvectors * subDim == dim;
    var codebook: seq<real> := [];
    ghost var blocks: seq<seq<Vector>> := [];
    ghost var befores: seq<seq<real>> := [];
    for sv := 0 to subvectors
      invariant |codebook| == sv * centroids * subDim && |blocks| == |befores| == sv
      invariant forall s :: 0 <= s < sv ==> Placed(codebook, vectors, dim, subDim, centroids, s, befores[s], blocks[s])
    {
      SegmentFits(dim, subvectors, subDim, sv);
      var cents, assign, states := TrainSegment(Segments(vectors, dim, subDim, sv), subDim, centroids);
      var added := Flat(cents, subDim, |cents|);
      WellTrainedBy(Segments(vectors, dim, subDim, sv), cents, assign, subDim, centroids, states);
      forall s | 0 <= s < sv
        ensures Placed(codebook + added, vectors, dim, subDim, centroids, s, befores[s], blocks[s])
      {
        PlacedGrows(codebook, vectors, dim, subDim, centroids, s, befores[s], blocks[s], added);
      }
      PlacedLast(codebook, vectors, dim, subDim, centroids, sv, cents);
      befores, blocks := befores + [codebook], blocks + [cents];
      BlockSize(sv, centroids, subDim);
      codebook := codebook + added;
    }
    q := ProductQuantizer(subvectors, centroids, subDim, codebook);
    forall sv | 0 <= sv < subvectors
      ensures SegmentTrained(q, vectors, sv)
    {
      PlacedReadsBack(q, vectors, sv, befores[sv], blocks[sv]);
    }
  }

  lemma WellTrainedBy(vecs: seq<Vector>, cents: seq<Vector>, assign: seq<nat>, dim: nat, n: nat,
                      states: seq<Clustering>)
    requires vecs != [] && Shaped(vecs, dim) && Problem(vecs, assign, cents, dim)
    requires Descent(vecs, states, dim, n, Used(vecs, n)) && Settled(states)
    requires states[0].cents == Initial(vecs, n) && states[|states| - 1] == Clustering(assign, cents)
    requires forall a :: |a| == |vecs| && InRange(a, Used(vecs, n)) ==>
      Problem(vecs, a, Initial(vecs, n), dim) &&
      TotalError(vecs, assign, cents, dim) <= TotalError(vecs, a, Initial(vecs, n), dim)
    ensures WellTrained(vecs, cents, dim, n)
  {
    hide Error, Initial, StepDown;
    assert Trains(vecs, cents, dim, n, states);
  }

  lemma SegmentFits(dim: nat, subvectors: nat, subDim: nat, sv: nat)
    requires subvectors * subDim == dim && sv < subvectors
    ensures 0 <= sv * subDim && sv * subDim + subDim <= dim
  {
    assert (sv + 1) * subDim <= subvectors * subDim;
  }

  lemma BlockSize(sv: nat, centroids: nat, subDim: nat)
    ensures (sv + 1) * centroids * subDim == sv * centroids * subDim + centroids * subDim
  {
    assert (sv + 1) * centroids == sv * centroids + centroids;
  }

  /** Segment `s`'s block stands in the codebook after `before`, and it is trained. */
  ghost predicate Placed(codebook: seq<real>, vectors: seq<Vector>, dim: nat, subDim: nat, centroids: nat, s: nat,
                         before: seq<real>, cents: seq<Vector>)
  {
    vectors != [] && Shaped(vectors, dim) && s * subDim + subDim <= dim &&
    |before| == s * centroids * subDim && |cents| == centroids && Shaped(cents, subDim) &&
    before + Flat(cents, subDim, centroids) <= codebook &&
    WellTrained(Segments(vectors, dim, subDim, s), cents, subDim, centroids)
  }

  lemma PlacedGrows(codebook: seq<real>, vectors: seq<Vector>, dim: nat, subDim: nat, centroids: nat, s: nat,
                    before: seq<real>, cents: seq<Vector>, added: seq<real>)
    requires Placed(codebook, vectors, dim, subDim, centroids, s, before, cents)
    ensures Placed(codebook + added, vectors, dim, subDim, centroids, s, before, cents)
  {
    hide WellTrained, Flat;
  }

  lemma PlacedLast(codebook: seq<real>, vectors: seq<Vector>, dim: nat, subDim: nat, centroids: nat, s: nat,
                   cents: seq<Vector>)
    requires vectors != [] && Shaped(vectors, dim) && s * subDim + subDim <= dim
    requires |codebook| == s * centroids * subDim && |cents| == centroids && Shaped(cents, subDim)
    requires WellTrained(Segments(vectors, dim, subDim, s), cents, subDim, centroids)
    ensures Placed(codebook + Flat(cents, subDim, centroids), vectors, dim, subDim, centroids, s, codebook, cents)
  {
    hide WellTrained, Flat;
  }

  lemma PlacedReadsBack(q: ProductQuantizer, vectors: seq<Vector>, sv: nat, before: seq<real>, cents: seq<Vector>)
    requires q.Valid() && sv < q.subvectors && vectors != [] && Shaped(vectors, q.Dim())
    requires Placed(q.codebook, vectors, q.Dim(), q.subDim, q.centroids, sv, before, cents)
    ensures SegmentTrained(q, vectors, sv)
  {
    hide WellTrained, Flat, Centroid;
    var head := before + Flat(cents, q.subDim, q.centroids);
    BlockReadsBack(q, sv, cents, before, q.codebook[|head|..]);
  }
}
