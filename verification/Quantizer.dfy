/** Squared Euclidean distance over exact reals. */
module SquaredDistance {

  type Vector = seq<real>

  function Product(x: real, y: real): real { x * y }

  function Square(x: real): (r: real)
    ensures r >= 0.0
  {
    Product(x, x)
  }

  lemma SquarePositive(x: real)
    requires x > 0.0
    ensures Square(x) > 0.0
  {
    ProductPositive(x, x);
  }

  lemma ProductPositive(x: real, y: real)
    requires x > 0.0 && y > 0.0
    ensures Product(x, y) > 0.0
  {
  }

  lemma SquareEven(x: real)
    ensures Square(-x) == Square(x)
  {
  }

  /** Distance over the first `n` coordinates. */
  function L2Upto(a: Vector, b: Vector, n: nat): (r: real)
    requires n <= |a| && n <= |b|
    ensures r >= 0.0
  {
    if n == 0 then 0.0 else L2Upto(a, b, n - 1) + Square(a[n - 1] - b[n - 1])
  }

  function L2(a: Vector, b: Vector): (r: real)
    requires |a| == |b|
    ensures r >= 0.0
  {
    L2Upto(a, b, |a|)
  }

  method L2Sq(a: Vector, b: Vector) returns (sum: real)
    requires |a| == |b|
    ensures sum == L2(a, b)
  {
    sum := 0.0;
    for i := 0 to |a|
      invariant sum == L2Upto(a, b, i)
    {
      var d := a[i] - b[i];
      sum := sum + d * d;
    }
  }

  lemma {:induction false} L2ZeroIffEqual(a: Vector, b: Vector, n: nat)
    requires n <= |a| && n <= |b|
    ensures L2Upto(a, b, n) == 0.0 <==> a[..n] == b[..n]
  {
    if n > 0 {
      L2ZeroIffEqual(a, b, n - 1);
      var d := a[n - 1] - b[n - 1];
      if d > 0.0 { SquarePositive(d); } else if d < 0.0 { SquarePositive(-d); SquareEven(d); }
      assert a[..n] == a[..n - 1] + [a[n - 1]] && b[..n] == b[..n - 1] + [b[n - 1]];
    }
  }

  /** Distances of equal prefixes agree. */
  lemma {:induction false} L2UptoPrefix(a: Vector, b: Vector, c: Vector, d: Vector, n: nat)
    requires n <= |a| && n <= |b| && n <= |c| && n <= |d| && a[..n] == c[..n] && b[..n] == d[..n]
    ensures L2Upto(a, b, n) == L2Upto(c, d, n)
  {
    if n > 0 {
      assert a[..n - 1] == a[..n][..n - 1] && b[..n - 1] == b[..n][..n - 1];
      assert c[..n - 1] == c[..n][..n - 1] && d[..n - 1] == d[..n][..n - 1];
      assert a[n - 1] == a[..n][n - 1] && b[n - 1] == b[..n][n - 1];
      assert c[n - 1] == c[..n][n - 1] && d[n - 1] == d[..n][n - 1];
      L2UptoPrefix(a, b, c, d, n - 1);
    }
  }

  /** Distance is additive over concatenation. */
  lemma {:induction false} L2Concat(a: Vector, b: Vector, c: Vector, d: Vector, n: nat)
    requires |a| == |b| && n <= |c| && n <= |d|
    ensures L2Upto(a + c, b + d, |a| + n) == L2(a, b) + L2Upto(c, d, n)
  {
    if n == 0 {
      L2UptoPrefix(a, b, a + c, b + d, |a|);
    } else {
      L2Concat(a, b, c, d, n - 1);
    }
  }
}

/** Product quantisation: codebook layout, encoding, decoding and the distance table. */
module Quantizer {
  import opened SquaredDistance

  type Code = nat

  /** `codebook` holds `subvectors` blocks of `centroids` centroids of `subDim` numbers each. */
  datatype ProductQuantizer = ProductQuantizer(subvectors: nat, centroids: nat, subDim: nat, codebook: seq<real>) {
    predicate Valid() {
      subvectors > 0 && 0 < centroids <= 256 && |codebook| == subvectors * centroids * subDim
    }

    function Dim(): nat { subvectors * subDim }
  }

  lemma SlotBounds(q: ProductQuantizer, sv: nat, c: nat)
    requires q.Valid() && sv < q.subvectors && c < q.centroids
    ensures sv * q.centroids * q.subDim + c * q.subDim == (sv * q.centroids + c) * q.subDim
    ensures sv * q.centroids + c < q.subvectors * q.centroids
    ensures (sv * q.centroids + c) * q.subDim + q.subDim <= |q.codebook|
  {
    var slot, slots := sv * q.centroids + c, q.subvectors * q.centroids;
    assert slot < slots by { assert (sv + 1) * q.centroids <= slots; }
    assert (slot + 1) * q.subDim <= slots * q.subDim;
  }

  function Centroid(q: ProductQuantizer, sv: nat, c: nat): (v: Vector)
    requires q.Valid() && sv < q.subvectors && c < q.centroids
    ensures |v| == q.subDim
  {
    SlotBounds(q, sv, c);
    q.codebook[sv * q.centroids * q.subDim + c * q.subDim..sv * q.centroids * q.subDim + c * q.subDim + q.subDim]
  }

  lemma SegmentBounds(q: ProductQuantizer, sv: nat)
    requires sv < q.subvectors
    ensures 0 <= sv * q.subDim && sv * q.subDim + q.subDim <= q.Dim()
  {
    assert (sv + 1) * q.subDim <= q.subvectors * q.subDim;
  }

  function Segment(q: ProductQuantizer, v: Vector, sv: nat): (s: Vector)
    requires |v| == q.Dim() && sv < q.subvectors
    ensures |s| == q.subDim
  {
    SegmentBounds(q, sv);
    v[sv * q.subDim..sv * q.subDim + q.subDim]
  }

  predicate ValidCodes(q: ProductQuantizer, codes: seq<Code>, n: nat) {
    n <= |codes| && n <= q.subvectors && forall sv :: 0 <= sv < n ==> codes[sv] < q.centroids
  }

  /** The chosen centroids, segment after segment. */
  function Decoded(q: ProductQuantizer, codes: seq<Code>, n: nat): (v: Vector)
    requires q.Valid() && ValidCodes(q, codes, n)
    ensures |v| == n * q.subDim
  {
    if n == 0 then [] else Decoded(q, codes, n - 1) + Centroid(q, n - 1, codes[n - 1])
  }

  /** Sum of the segments' distances to their chosen centroids. */
  function CodeDistance(q: ProductQuantizer, v: Vector, codes: seq<Code>, n: nat): real
    requires q.Valid() && |v| == q.Dim() && ValidCodes(q, codes, n)
  {
    if n == 0 then 0.0
    else CodeDistance(q, v, codes, n - 1) + L2(Segment(q, v, n - 1), Centroid(q, n - 1, codes[n - 1]))
  }

  lemma {:induction false} CodeDistanceIsDecodedDistance(q: ProductQuantizer, v: Vector, codes: seq<Code>, n: nat)
    requires q.Valid() && |v| == q.Dim() && ValidCodes(q, codes, n)
    ensures 0 <= n * q.subDim <= |v|
    ensures CodeDistance(q, v, codes, n) == L2(v[..n * q.subDim], Decoded(q, codes, n))
  {
    hide Segment, Centroid;
    if n > 0 {
      PrefixSplit(q, v, n);
      CodeDistanceIsDecodedDistance(q, v, codes, n - 1);
      var a, c := v[..(n - 1) * q.subDim], Segment(q, v, n - 1);
      var b, d := Decoded(q, codes, n - 1), Centroid(q, n - 1, codes[n - 1]);
      L2Concat(a, b, c, d, |c|);
      hide L2Upto;
    }
  }

  lemma PrefixSplit(q: ProductQuantizer, v: Vector, n: nat)
    requires |v| == q.Dim() && 0 < n <= q.subvectors
    ensures 0 <= (n - 1) * q.subDim <= n * q.subDim <= |v|
    ensures v[..n * q.subDim] == v[..(n - 1) * q.subDim] + Segment(q, v, n - 1)
  {
    SegmentBounds(q, n - 1);
    assert n * q.subDim == (n - 1) * q.subDim + q.subDim;
  }

  // ---- Encoding -------------------------------------------------------------------

  /** `c` is the first of the first `n` centroids of its segment at least distance. */
  predicate NearestUpto(q: ProductQuantizer, sub: Vector, sv: nat, c: nat, n: nat)
    requires q.Valid() && sv < q.subvectors && |sub| == q.subDim && n <= q.centroids
  {
    c < n && forall b :: 0 <= b < n ==>
      L2(sub, Centroid(q, sv, c)) <= L2(sub, Centroid(q, sv, b)) &&
      (b < c ==> L2(sub, Centroid(q, sv, c)) < L2(sub, Centroid(q, sv, b)))
  }

  /** The scan for the nearest centroid; the starting distance exceeds every real one. */
  method NearestCentroid(q: ProductQuantizer, sub: Vector, sv: nat) returns (best: Code)
    requires q.Valid() && sv < q.subvectors && |sub| == q.subDim
    ensures NearestUpto(q, sub, sv, best, q.centroids)
  {
    best := 0;
    var bestDist := 0.0;
    for c := 0 to q.centroids
      invariant c > 0 ==> NearestUpto(q, sub, sv, best, c) && bestDist == L2(sub, Centroid(q, sv, best))
    {
      var dist := L2Sq(sub, Centroid(q, sv, c));
      if c == 0 || dist < bestDist { best, bestDist := c, dist; }
    }
  }

  predicate IsEncoding(q: ProductQuantizer, v: Vector, codes: seq<Code>, n: nat)
    requires q.Valid() && |v| == q.Dim()
  {
    ValidCodes(q, codes, n) && |codes| == n &&
    forall sv :: 0 <= sv < n ==> NearestUpto(q, Segment(q, v, sv), sv, codes[sv], q.centroids)
  }

  method Encode(q: ProductQuantizer, v: Vector) returns (codes: seq<Code>)
    requires q.Valid() && |v| == q.Dim()
    ensures IsEncoding(q, v, codes, q.subvectors)
  {
    codes := [];
    for sv := 0 to q.subvectors
      invariant IsEncoding(q, v, codes, sv)
    {
      var best := NearestCentroid(q, Segment(q, v, sv), sv);
      hide NearestUpto;
      codes := codes + [best];
    }
  }

  method Decode(q: ProductQuantizer, codes: seq<Code>) returns (v: Vector)
    requires q.Valid() && ValidCodes(q, codes, q.subvectors) && |codes| == q.subvectors
    ensures v == Decoded(q, codes, q.subvectors)
  {
    v := [];
    for sv := 0 to q.subvectors
      invariant v == Decoded(q, codes, sv)
    {
      v := v + Centroid(q, sv, codes[sv]);
    }
  }

  lemma {:induction false} EncodingMinimises(q: ProductQuantizer, v: Vector, codes: seq<Code>, others: seq<Code>,
                                             n: nat)
    requires q.Valid() && |v| == q.Dim() && n <= q.subvectors
    requires IsEncoding(q, v, codes, q.subvectors) && ValidCodes(q, others, n)
    ensures CodeDistance(q, v, codes, n) <= CodeDistance(q, v, others, n)
  {
    if n > 0 {
      EncodingMinimises(q, v, codes, others, n - 1);
      assert NearestUpto(q, Segment(q, v, n - 1), n - 1, codes[n - 1], q.centroids);
      hide Segment, Centroid;
    }
  }

  /** Greedy encoding is optimal: no code tuple decodes to a closer vector. */
  lemma EncodingIsOptimal(q: ProductQuantizer, v: Vector, codes: seq<Code>, others: seq<Code>)
    requires q.Valid() && |v| == q.Dim()
    requires IsEncoding(q, v, codes, q.subvectors) && ValidCodes(q, others, q.subvectors)
    ensures L2(v, Decoded(q, codes, q.subvectors)) <= L2(v, Decoded(q, others, q.subvectors))
  {
    hide Decoded, L2, CodeDistance, IsEncoding;
    assert ValidCodes(q, codes, q.subvectors) by { EncodingIsValid(q, v, codes); }
    EncodingMinimises(q, v, codes, others, q.subvectors);
    CodeDistanceIsDecodedDistance(q, v, codes, q.subvectors);
    CodeDistanceIsDecodedDistance(q, v, others, q.subvectors);
    assert v[..|v|] == v;
  }

  lemma EncodingIsValid(q: ProductQuantizer, v: Vector, codes: seq<Code>)
    requires q.Valid() && |v| == q.Dim() && IsEncoding(q, v, codes, q.subvectors)
    ensures ValidCodes(q, codes, q.subvectors)
  {
  }

  /** Encoding a decoded vector decodes to the same vector. */
  lemma ReencodingIsStable(q: ProductQuantizer, codes: seq<Code>, again: seq<Code>)
    requires q.Valid() && ValidCodes(q, codes, q.subvectors)
    requires IsEncoding(q, Decoded(q, codes, q.subvectors), again, q.subvectors)
    ensures Decoded(q, again, q.subvectors) == Decoded(q, codes, q.subvectors)
  {
    var v := Decoded(q, codes, q.subvectors);
    EncodingIsValid(q, v, again);
    EncodingIsOptimal(q, v, again, codes);
    var w := Decoded(q, again, q.subvectors);
    hide Decoded, IsEncoding;
    L2ZeroIffEqual(v, v, |v|);
    L2ZeroIffEqual(v, w, |v|);
    assert v[..|v|] == v && w[..|v|] == w;
  }

  // ---- The distance table -----------------------------------------------------------

  predicate IsTable(q: ProductQuantizer, query: Vector, table: seq<real>, n: nat)
    requires q.Valid() && |query| == q.Dim()
  {
    n <= q.subvectors && |table| == n * q.centroids &&
    forall sv: nat, c: nat :: sv < n && c < q.centroids ==> TableEntry(q, query, table, sv, c)
  }

  predicate TableEntry(q: ProductQuantizer, query: Vector, table: seq<real>, sv: nat, c: nat)
    requires q.Valid() && |query| == q.Dim() && sv < q.subvectors && c < q.centroids
  {
    sv * q.centroids + c < |table| &&
    table[sv * q.centroids + c] == L2(Segment(q, query, sv), Centroid(q, sv, c))
  }

  method PrecomputeDistanceTable(q: ProductQuantizer, query: Vector) returns (table: seq<real>)
    requires q.Valid() && |query| == q.Dim()
    ensures IsTable(q, query, table, q.subvectors)
  {
    hide L2, Segment, Centroid;
    table := [];
    for sv := 0 to q.subvectors
      invariant IsTable(q, query, table, sv)
    {
      ghost var before := table;
      table := AppendRow(q, query, table, sv);
      TableGrows(q, query, before, table, sv);
    }
  }

  method AppendRow(q: ProductQuantizer, query: Vector, before: seq<real>, sv: nat) returns (table: seq<real>)
    requires q.Valid() && |query| == q.Dim() && sv < q.subvectors && |before| == sv * q.centroids
    ensures before <= table && |table| == sv * q.centroids + q.centroids
    ensures forall b: nat :: b < q.centroids ==> TableEntry(q, query, table, sv, b)
  {
    hide L2, Segment, Centroid;
    table := before;
    for c := 0 to q.centroids
      invariant |table| == |before| + c && before <= table
      invariant forall b: nat :: b < c ==> TableEntry(q, query, table, sv, b)
    {
      var d := L2Sq(Segment(q, query, sv), Centroid(q, sv, c));
      ghost var shorter := table;
      table := table + [d];
      forall b: nat | b < c + 1
        ensures TableEntry(q, query, table, sv, b)
      {
        if b < c { assert TableEntry(q, query, shorter, sv, b); }
      }
    }
  }

  lemma TableGrows(q: ProductQuantizer, query: Vector, before: seq<real>, table: seq<real>, n: nat)
    requires q.Valid() && |query| == q.Dim() && n < q.subvectors && IsTable(q, query, before, n)
    requires before <= table && |table| == n * q.centroids + q.centroids
    requires forall b: nat :: b < q.centroids ==> TableEntry(q, query, table, n, b)
    ensures IsTable(q, query, table, n + 1)
  {
    hide L2, Segment, Centroid;
    assert (n + 1) * q.centroids == n * q.centroids + q.centroids;
    forall sv: nat, c: nat | sv < n + 1 && c < q.centroids
      ensures TableEntry(q, query, table, sv, c)
    {
      if sv < n { assert TableEntry(q, query, before, sv, c); }
    }
  }

  method AsymmetricDistanceWithTable(q: ProductQuantizer, ghost query: Vector, table: seq<real>, codes: seq<Code>)
    returns (dist: real)
    requires q.Valid() && |query| == q.Dim() && IsTable(q, query, table, q.subvectors)
    requires ValidCodes(q, codes, q.subvectors) && |codes| == q.subvectors
    ensures dist == L2(query, Decoded(q, codes, q.subvectors))
  {
    hide L2, Segment, Centroid, Decoded;
    dist := 0.0;
    for sv := 0 to |codes|
      invariant dist == CodeDistance(q, query, codes, sv)
    {
      assert TableEntry(q, query, table, sv, codes[sv]);
      dist := dist + table[sv * q.centroids + codes[sv]];
    }
    CodeDistanceIsDecodedDistance(q, query, codes, q.subvectors);
    assert query[..|query|] == query;
  }
}
