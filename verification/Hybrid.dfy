/** Hybrid search: vector and keyword scores, each scaled to 0..1, weighted and merged into one ranking. */
module Hybrid {
  import opened Wrappers
  import opened Cache
  import opened Sorting
  import opened VectorSearch
  import opened VectorIndex
  import Bm25

  // ---- Scaling scores -----------------------------------------------------------------

  function Least(xs: seq<Scored>): real
    requires xs != []
  {
    var last := xs[|xs| - 1].1;
    if |xs| == 1 then last else var m := Least(xs[..|xs| - 1]); if last < m then last else m
  }

  function Greatest(xs: seq<Scored>): real
    requires xs != []
  {
    var last := xs[|xs| - 1].1;
    if |xs| == 1 then last else var m := Greatest(xs[..|xs| - 1]); if last > m then last else m
  }

  function Scale(x: real, least: real, greatest: real): real {
    if greatest - least == 0.0 then 0.0 else (x - least) / (greatest - least)
  }

  /** Min-max normalisation; equal scores all become zero. */
  function Normalized(xs: seq<Scored>): (r: seq<Scored>)
    ensures |r| == |xs|
  {
    seq(|xs|, i requires 0 <= i < |xs| => (xs[i].0, Scale(xs[i].1, Least(xs), Greatest(xs))))
  }

  lemma {:induction false} Bounds(xs: seq<Scored>, i: nat)
    requires i < |xs|
    ensures Least(xs) <= xs[i].1 <= Greatest(xs)
    decreases |xs|
  {
    if |xs| > 1 && i < |xs| - 1 {
      Bounds(xs[..|xs| - 1], i);
    } else if |xs| > 1 {
      Bounds(xs[..|xs| - 1], 0);
    }
  }

  lemma ScaleInUnit(x: real, least: real, greatest: real)
    requires least <= x <= greatest
    ensures 0.0 <= Scale(x, least, greatest) <= 1.0
  {
    var range := greatest - least;
    if range != 0.0 {
      var q := (x - least) / range;
      assert q * range == x - least;
    }
  }

  /** Scaled scores keep their indices and lie between zero and one. */
  lemma NormalizedInUnit(xs: seq<Scored>, i: nat)
    requires i < |xs|
    ensures Normalized(xs)[i].0 == xs[i].0 && 0.0 <= Normalized(xs)[i].1 <= 1.0
  {
    Bounds(xs, i);
    ScaleInUnit(xs[i].1, Least(xs), Greatest(xs));
  }

  lemma {:induction false} BoundsReached(xs: seq<Scored>) returns (lo: nat, hi: nat)
    requires xs != []
    ensures lo < |xs| && hi < |xs| && xs[lo].1 == Least(xs) && xs[hi].1 == Greatest(xs)
    decreases |xs|
  {
    lo, hi := |xs| - 1, |xs| - 1;
    if |xs| > 1 {
      var l, h := BoundsReached(xs[..|xs| - 1]);
      lo := if xs[lo].1 < xs[l].1 then lo else l;
      hi := if xs[hi].1 > xs[h].1 then hi else h;
    }
  }

  lemma ScaleKeepsRatio(x: real, least: real, greatest: real)
    requires least < greatest
    ensures Scale(x, least, greatest) * (greatest - least) == x - least
  {
    var range := greatest - least;
    assert (x - least) / range * range == x - least;
  }

  lemma ScaleEnds(least: real, greatest: real)
    requires least < greatest
    ensures Scale(least, least, greatest) == 0.0 && Scale(greatest, least, greatest) == 1.0
  {
    hide Scale;
    var range := greatest - least;
    ScaleKeepsRatio(least, least, greatest);
    ScaleKeepsRatio(greatest, least, greatest);
    Cancel(Scale(least, least, greatest), 0.0, range);
    Cancel(Scale(greatest, least, greatest), 1.0, range);
  }

  lemma Cancel(a: real, b: real, c: real)
    requires c > 0.0 && a * c == b * c
    ensures a == b
  {
  }

  /** Scaling is the one linear map that sends the least score to zero and the greatest to one; scores that are
      all equal become zero. */
  lemma NormalizedExactly(xs: seq<Scored>, lo: nat, hi: nat, i: nat)
    requires lo < |xs| && hi < |xs| && i < |xs|
    requires forall j :: 0 <= j < |xs| ==> xs[lo].1 <= xs[j].1 <= xs[hi].1
    ensures Normalized(xs)[i].1 * (xs[hi].1 - xs[lo].1) == xs[i].1 - xs[lo].1
    ensures xs[lo].1 == xs[hi].1 ==> Normalized(xs)[i].1 == 0.0
    ensures xs[lo].1 < xs[hi].1 ==> Normalized(xs)[lo].1 == 0.0 && Normalized(xs)[hi].1 == 1.0
  {
    hide Least, Greatest;
    var l, h := BoundsReached(xs);
    Bounds(xs, lo);
    Bounds(xs, hi);
    assert xs[lo].1 == Least(xs) && xs[hi].1 == Greatest(xs);
    if Least(xs) < Greatest(xs) {
      ScaleKeepsRatio(xs[i].1, Least(xs), Greatest(xs));
      ScaleEnds(Least(xs), Greatest(xs));
    }
  }

  lemma ScaleOrders(x: real, y: real, least: real, greatest: real)
    requires least <= x <= greatest && least <= y <= greatest
    ensures x < y <==> Scale(x, least, greatest) < Scale(y, least, greatest)
  {
    if least < greatest {
      hide Scale;
      ScaleKeepsRatio(x, least, greatest);
      ScaleKeepsRatio(y, least, greatest);
      var range, a, b := greatest - least, Scale(x, least, greatest), Scale(y, least, greatest);
      ProductOrders(a, b, range);
    }
  }

  lemma ProductOrders(a: real, b: real, c: real)
    requires c > 0.0
    ensures a * c < b * c <==> a < b
  {
  }

  /** Scaling keeps the order of the scores, strictly. */
  lemma NormalizedOrders(xs: seq<Scored>, i: nat, j: nat)
    requires i < |xs| && j < |xs|
    ensures xs[i].1 < xs[j].1 <==> Normalized(xs)[i].1 < Normalized(xs)[j].1
  {
    hide Least, Greatest, Scale;
    Bounds(xs, i);
    Bounds(xs, j);
    ScaleOrders(xs[i].1, xs[j].1, Least(xs), Greatest(xs));
  }

  // ---- Merging ---------------------------------------------------------------------------

  function Weighted(xs: seq<Scored>, w: real): (r: seq<Scored>)
    ensures |r| == |xs|
  {
    seq(|xs|, i requires 0 <= i < |xs| => (xs[i].0, w * xs[i].1))
  }

  /** The sum of all scores listed for index `i`. */
  function SumFor(xs: seq<Scored>, i: nat): real {
    if xs == [] then 0.0
    else SumFor(xs[..|xs| - 1], i) + if xs[|xs| - 1].0 == i then xs[|xs| - 1].1 else 0.0
  }

  /** Everything that contributes to the merged ranking. */
  function Contributions(vec: seq<Scored>, kw: seq<Scored>, vectorWeight: real, keywordWeight: real): seq<Scored> {
    Weighted(Normalized(vec), vectorWeight) + Weighted(Normalized(kw), keywordWeight)
  }

  ghost predicate Sums(merged: map<nat, real>, xs: seq<Scored>) {
    && (forall i: nat :: i in merged <==> Lists(xs, i))
    && (forall i :: i in merged ==> merged[i] == SumFor(xs, i))
  }

  lemma SumsGrow(merged: map<nat, real>, xs: seq<Scored>, p: Scored)
    requires Sums(merged, xs)
    ensures Sums(merged[p.0 := (if p.0 in merged then merged[p.0] else 0.0) + p.1], xs + [p])
  {
    hide SumFor;
    var longer := xs + [p];
    assert longer[|xs|] == p;
    forall i: nat
      ensures Lists(longer, i) <==> Lists(xs, i) || i == p.0
      ensures SumFor(longer, i) == SumFor(xs, i) + if p.0 == i then p.1 else 0.0
    {
      SumForSnoc(xs, p, i);
      if Lists(xs, i) {
        var m :| 0 <= m < |xs| && xs[m].0 == i;
        assert longer[m].0 == i;
      }
    }
    if p.0 !in merged {
      SumForAbsent(xs, p.0);
    }
  }

  lemma SumForSnoc(xs: seq<Scored>, p: Scored, i: nat)
    ensures SumFor(xs + [p], i) == SumFor(xs, i) + if p.0 == i then p.1 else 0.0
  {
    assert (xs + [p])[..|xs|] == xs;
  }

  lemma {:induction false} SumForAbsent(xs: seq<Scored>, i: nat)
    requires !Lists(xs, i)
    ensures SumFor(xs, i) == 0.0
  {
    if xs != [] {
      var before := xs[..|xs| - 1];
      assert xs[|xs| - 1].0 != i;
      assert forall m :: 0 <= m < |before| ==> before[m] == xs[m];
      SumForAbsent(before, i);
    }
  }

  method Accumulate(merged0: map<nat, real>, ghost done: seq<Scored>, xs: seq<Scored>) returns (merged: map<nat, real>)
    requires Sums(merged0, done)
    ensures Sums(merged, done + xs)
  {
    hide Sums;
    merged := merged0;
    assert done + xs[..0] == done;
    for j := 0 to |xs|
      invariant Sums(merged, done + xs[..j])
    {
      SumsGrow(merged, done + xs[..j], xs[j]);
      assert done + xs[..j + 1] == done + xs[..j] + [xs[j]];
      merged := merged[xs[j].0 := (if xs[j].0 in merged then merged[xs[j].0] else 0.0) + xs[j].1];
    }
    assert xs[..|xs|] == xs;
  }

  /** Lists every contributing index once, with the sum of its contributions. */
  ghost predicate Tallies(items: seq<Scored>, contributions: seq<Scored>) {
    && DistinctIndices(items)
    && forall p: Scored :: p in items <==> Lists(contributions, p.0) && p.1 == SumFor(contributions, p.0)
  }

  /** The top k by the sum of weighted, scaled scores. */
  method MergeVectorKeyword(vec: seq<Scored>, kw: seq<Scored>, vectorWeight: real, keywordWeight: real, k: nat)
    returns (results: seq<Scored>, ghost items: seq<Scored>)
    ensures Tallies(items, Contributions(vec, kw, vectorWeight, keywordWeight)) && IsTopK(results, items, k)
  {
    hide SumFor, Lists, StableSort;
    NothingSummed();
    var first := Weighted(Normalized(vec), vectorWeight);
    var second := Weighted(Normalized(kw), keywordWeight);
    var merged := Accumulate(map[], [], first);
    assert [] + first == first;
    merged := Accumulate(merged, first, second);
    var pairs := Bm25.Items(merged);
    items := pairs;
    results := Take(k, StableSort(pairs, Descending));
  }

  lemma NothingSummed()
    ensures Sums(map[], [])
  {
  }

  // ---- What merging does to the order ---------------------------------------------------------

  lemma {:induction false} SumForConcat(a: seq<Scored>, b: seq<Scored>, i: nat)
    ensures SumFor(a + b, i) == SumFor(a, i) + SumFor(b, i)
  {
    if b == [] {
      assert a + b == a;
    } else {
      assert (a + b)[..|a + b| - 1] == a + b[..|b| - 1];
      SumForConcat(a, b[..|b| - 1], i);
    }
  }

  lemma {:induction false} SumForListed(xs: seq<Scored>, m: nat)
    requires m < |xs| && DistinctIndices(xs)
    ensures SumFor(xs, xs[m].0) == xs[m].1
  {
    var before := xs[..|xs| - 1];
    if m == |xs| - 1 {
      assert !Lists(before, xs[m].0);
      SumForAbsent(before, xs[m].0);
    } else {
      SumForListed(before, m);
    }
  }

  /** The share of one stage in the merged score of row `r`. */
  function Share(xs: seq<Scored>, w: real, r: nat): real { SumFor(Weighted(Normalized(xs), w), r) }

  lemma ShareListed(xs: seq<Scored>, w: real, m: nat)
    requires m < |xs| && DistinctIndices(xs)
    ensures Share(xs, w, xs[m].0) == w * Normalized(xs)[m].1
  {
    hide SumFor, Scale, Least, Greatest;
    var ys := Weighted(Normalized(xs), w);
    assert forall i :: 0 <= i < |xs| ==> ys[i].0 == Normalized(xs)[i].0 == xs[i].0;
    SumForListed(ys, m);
  }

  lemma ShareAbsent(xs: seq<Scored>, w: real, r: nat)
    requires !Lists(xs, r)
    ensures Share(xs, w, r) == 0.0
  {
    hide SumFor, Scale, Least, Greatest;
    var ys := Weighted(Normalized(xs), w);
    assert forall i :: 0 <= i < |xs| ==> ys[i].0 == Normalized(xs)[i].0 == xs[i].0;
    SumForAbsent(ys, r);
  }

  lemma MergedIsShares(vec: seq<Scored>, kw: seq<Scored>, vectorWeight: real, keywordWeight: real, r: nat)
    ensures SumFor(Contributions(vec, kw, vectorWeight, keywordWeight), r)
         == Share(vec, vectorWeight, r) + Share(kw, keywordWeight, r)
  {
    hide SumFor, Weighted, Normalized;
    SumForConcat(Weighted(Normalized(vec), vectorWeight), Weighted(Normalized(kw), keywordWeight), r);
  }

  /** Row `a` does at least as well as row `b` in a stage: `b` was not found, or both were and `a` scores no less. */
  ghost predicate NoWorse(xs: seq<Scored>, a: nat, b: nat) {
    Lists(xs, b) ==> exists i, j :: 0 <= i < |xs| && 0 <= j < |xs| && xs[i].0 == a && xs[j].0 == b && xs[i].1 >= xs[j].1
  }

  /** Both were found and `a` scores more. */
  ghost predicate Beats(xs: seq<Scored>, a: nat, b: nat) {
    exists i, j :: 0 <= i < |xs| && 0 <= j < |xs| && xs[i].0 == a && xs[j].0 == b && xs[i].1 > xs[j].1
  }

  lemma ShareNoWorse(xs: seq<Scored>, w: real, a: nat, b: nat)
    requires DistinctIndices(xs) && w > 0.0 && NoWorse(xs, a, b)
    ensures Share(xs, w, a) >= Share(xs, w, b)
  {
    hide Share, Normalized;
    if Lists(xs, b) {
      var i, j :| 0 <= i < |xs| && 0 <= j < |xs| && xs[i].0 == a && xs[j].0 == b && xs[i].1 >= xs[j].1;
      ShareListed(xs, w, i);
      ShareListed(xs, w, j);
      NormalizedOrders(xs, i, j);
      ScaleUp(Normalized(xs)[j].1, Normalized(xs)[i].1, w);
    } else {
      ShareAbsent(xs, w, b);
      if Lists(xs, a) {
        var i :| 0 <= i < |xs| && xs[i].0 == a;
        ShareListed(xs, w, i);
        NormalizedInUnit(xs, i);
        ScaleUp(0.0, Normalized(xs)[i].1, w);
      } else {
        ShareAbsent(xs, w, a);
      }
    }
  }

  lemma ScaleUp(x: real, y: real, w: real)
    requires w > 0.0
    ensures x <= y ==> w * x <= w * y
    ensures x < y ==> w * x < w * y
  {
  }

  lemma ShareBeats(xs: seq<Scored>, w: real, a: nat, b: nat)
    requires DistinctIndices(xs) && w > 0.0 && Beats(xs, a, b)
    ensures Share(xs, w, a) > Share(xs, w, b)
  {
    hide Share, Normalized;
    var i, j :| 0 <= i < |xs| && 0 <= j < |xs| && xs[i].0 == a && xs[j].0 == b && xs[i].1 > xs[j].1;
    ShareListed(xs, w, i);
    ShareListed(xs, w, j);
    NormalizedOrders(xs, j, i);
    ScaleUp(Normalized(xs)[j].1, Normalized(xs)[i].1, w);
  }

  /** The merged score of a row: the weighted sum of its two scaled scores, with zero where it was not found. */
  lemma MergedExactly(vec: seq<Scored>, kw: seq<Scored>, vectorWeight: real, keywordWeight: real, i: nat, j: nat)
    requires DistinctIndices(vec) && DistinctIndices(kw) && i < |vec| && j < |kw|
    ensures var all := Contributions(vec, kw, vectorWeight, keywordWeight);
      var v, w := vectorWeight * Normalized(vec)[i].1, keywordWeight * Normalized(kw)[j].1;
      && (vec[i].0 == kw[j].0 ==> SumFor(all, vec[i].0) == v + w)
      && (!Lists(kw, vec[i].0) ==> SumFor(all, vec[i].0) == v)
      && (!Lists(vec, kw[j].0) ==> SumFor(all, kw[j].0) == w)
  {
    hide Share, SumFor, Contributions, Lists, Normalized;
    MergedIsShares(vec, kw, vectorWeight, keywordWeight, vec[i].0);
    MergedIsShares(vec, kw, vectorWeight, keywordWeight, kw[j].0);
    ShareListed(vec, vectorWeight, i);
    ShareListed(kw, keywordWeight, j);
    if !Lists(kw, vec[i].0) {
      ShareAbsent(kw, keywordWeight, vec[i].0);
    }
    if !Lists(vec, kw[j].0) {
      ShareAbsent(vec, vectorWeight, kw[j].0);
    }
  }

  /** A row that does no worse in either stage and better in one has the greater merged score. */
  lemma MergeOrders(vec: seq<Scored>, kw: seq<Scored>, vectorWeight: real, keywordWeight: real, a: nat, b: nat)
    requires DistinctIndices(vec) && DistinctIndices(kw) && vectorWeight > 0.0 && keywordWeight > 0.0
    requires NoWorse(vec, a, b) && NoWorse(kw, a, b) && (Beats(vec, a, b) || Beats(kw, a, b))
    ensures SumFor(Contributions(vec, kw, vectorWeight, keywordWeight), a)
          > SumFor(Contributions(vec, kw, vectorWeight, keywordWeight), b)
  {
    hide Share, SumFor, Contributions, NoWorse, Beats;
    MergedIsShares(vec, kw, vectorWeight, keywordWeight, a);
    MergedIsShares(vec, kw, vectorWeight, keywordWeight, b);
    ShareNoWorse(vec, vectorWeight, a, b);
    ShareNoWorse(kw, keywordWeight, a, b);
    if Beats(vec, a, b) {
      ShareBeats(vec, vectorWeight, a, b);
    } else {
      ShareBeats(kw, keywordWeight, a, b);
    }
  }

  /** So it comes before the other one in the results, wherever the other one is in them. */
  lemma BetterRanksFirst(vec: seq<Scored>, kw: seq<Scored>, vectorWeight: real, keywordWeight: real,
                         items: seq<Scored>, results: seq<Scored>, k: nat, a: nat, n: nat)
    returns (m: nat)
    requires DistinctIndices(vec) && DistinctIndices(kw) && vectorWeight > 0.0 && keywordWeight > 0.0
    requires Tallies(items, Contributions(vec, kw, vectorWeight, keywordWeight)) && IsTopK(results, items, k)
    requires n < |results| && NoWorse(vec, a, results[n].0) && NoWorse(kw, a, results[n].0)
    requires Beats(vec, a, results[n].0) || Beats(kw, a, results[n].0)
    ensures m < n && results[m].0 == a
  {
    hide SumFor, Contributions, IsTopK, NoWorse, Beats, Best, Lists, Scores, StableSort;
    var all := Contributions(vec, kw, vectorWeight, keywordWeight);
    MergeOrders(vec, kw, vectorWeight, keywordWeight, a, results[n].0);
    TopKExact(results, items, k);
    ResultIsItem(results, items, n);
    BeaterListed(vec, kw, vectorWeight, keywordWeight, a, results[n].0);
    m := TakenIfBetter(results, items, k, (a, SumFor(all, a)), n);
  }

  lemma ResultIsItem(results: seq<Scored>, items: seq<Scored>, n: nat)
    requires n < |results| && multiset(results) <= multiset(items)
    ensures results[n] in items
  {
    assert results[n] in multiset(results) && results[n] in multiset(items);
  }

  lemma TakenIfBetter(results: seq<Scored>, items: seq<Scored>, k: nat, p: Scored, n: nat) returns (m: nat)
    requires Best(results, items, k) && p in items && n < |results| && p.1 > results[n].1
    ensures m < n && results[m] == p
  {
    assert p in multiset(items) && results[n] in results;
    assert p in results;
    m :| 0 <= m < |results| && results[m] == p;
  }

  lemma BeaterListed(vec: seq<Scored>, kw: seq<Scored>, vectorWeight: real, keywordWeight: real, a: nat, b: nat)
    requires Beats(vec, a, b) || Beats(kw, a, b)
    ensures Lists(Contributions(vec, kw, vectorWeight, keywordWeight), a)
  {
    hide Contributions;
    ContributionCount(vec, kw, vectorWeight, keywordWeight);
    if Beats(vec, a, b) {
      var i :| 0 <= i < |vec| && vec[i].0 == a;
      ContributionsFound(vec, kw, vectorWeight, keywordWeight, i);
    } else {
      var i :| 0 <= i < |kw| && kw[i].0 == a;
      ContributionsFound(vec, kw, vectorWeight, keywordWeight, |vec| + i);
    }
  }

  /** With nothing found by keyword the results follow the vector scores. */
  lemma VectorOrderKept(vec: seq<Scored>, vectorWeight: real, keywordWeight: real,
                        items: seq<Scored>, results: seq<Scored>, k: nat, i: nat, n: nat)
    returns (m: nat)
    requires DistinctIndices(vec) && vectorWeight > 0.0
    requires Tallies(items, Contributions(vec, [], vectorWeight, keywordWeight)) && IsTopK(results, items, k)
    requires n < |results| && i < |vec|
    requires forall j :: 0 <= j < |vec| && vec[j].0 == results[n].0 ==> vec[i].1 > vec[j].1
    ensures m < n && results[m].0 == vec[i].0
  {
    hide SumFor, IsTopK, Normalized, Best, StableSort, Scores;
    NoKeywordShare(vec, vectorWeight, keywordWeight);
    var all := Contributions(vec, [], vectorWeight, keywordWeight);
    assert all == Contributions(vec, [], vectorWeight, 1.0);
    TopKExact(results, items, k);
    ResultIsItem(results, items, n);
    assert Lists(all, results[n].0);
    var j :| 0 <= j < |all| && all[j].0 == results[n].0;
    ContributionCount(vec, [], vectorWeight, 1.0);
    ContributionsFound(vec, [], vectorWeight, 1.0, j);
    assert Beats(vec, vec[i].0, results[n].0) && NoWorse(vec, vec[i].0, results[n].0);
    m := BetterRanksFirst(vec, [], vectorWeight, 1.0, items, results, k, vec[i].0, n);
  }

  lemma NoKeywordShare(vec: seq<Scored>, vectorWeight: real, keywordWeight: real)
    ensures Contributions(vec, [], vectorWeight, keywordWeight) == Weighted(Normalized(vec), vectorWeight)
    ensures Contributions(vec, [], vectorWeight, 1.0) == Weighted(Normalized(vec), vectorWeight)
  {
    hide Normalized;
    NormalizedNone();
  }

  lemma NormalizedNone()
    ensures Normalized([]) == []
  {
  }

  // ---- Searching a store --------------------------------------------------------------------

  /** What a search is asked for; `similarity` compares a stored embedding with the query's. */
  datatype Query = Query(dim: nat, norm: real, similarity: Vector -> real, tokens: seq<string>,
                         vectorWeight: real, keywordWeight: real, k: nat)

  /** What the engine is made of: the tokenizer, the logarithm, the square root, and the approximate search. */
  datatype Engine = Engine(tokenize: string -> seq<string>, ln: real -> real, sqrt: real -> real,
                           nearest: Index -> seq<Scored>)

  /** An approximate search may miss nodes, but finds only nodes that are not deleted, and none twice. */
  ghost predicate FindsNodes(index: Index, found: seq<Scored>) {
    DistinctIndices(found) && forall p: Scored :: p in found ==> p.0 < |index.vectors| && p.0 !in index.deleted
  }

  ghost predicate SoundEngine(engine: Engine) { forall index :: FindsNodes(index, engine.nearest(index)) }

  ghost predicate AllLive(found: seq<Scored>, rows: seq<Row>) { forall p: Scored :: p in found ==> IsLive(rows, p.0) }

  function TombstonesOf(rows: seq<Row>): seq<nat> { seq(|rows|, i requires 0 <= i < |rows| => rows[i].tombstone) }

  function Documents(rows: seq<Row>, tokenize: string -> seq<string>): seq<seq<string>> {
    seq(|rows|, i requires 0 <= i < |rows| => tokenize(rows[i].chunk))
  }

  function ScoreAt(rows: seq<Row>, similarity: Vector -> real): nat -> real {
    (i: nat) => if i < |rows| then similarity(rows[i].embedding) else 0.0
  }

  lemma LiveHere(rows: seq<Row>, i: nat)
    requires i < |rows| && Live(TombstonesOf(rows), i)
    ensures IsLive(rows, i)
  {
  }

  /** The full scan: all live rows, the most similar first; nothing for a zero query. */
  function FullScan(rows: seq<Row>, q: Query): seq<Scored> {
    if q.norm == 0.0 then [] else Ranking(|rows|, TombstonesOf(rows), ScoreAt(rows, q.similarity))
  }

  method ScanVectors(rows: seq<Row>, q: Query) returns (found: seq<Scored>)
    ensures found == FullScan(rows, q) && AllLive(found, rows) && DistinctIndices(found)
  {
    hide Candidates, StableSort, ListsLive, TombstonesOf;
    var tombstones, score := TombstonesOf(rows), ScoreAt(rows, q.similarity);
    found := CosineSimilarityBatch(q.norm, |rows|, tombstones, score);
    if q.norm != 0.0 {
      var candidates := Candidates(0, |rows|, tombstones, score);
      SortIsStableSort(candidates, Descending);
      CandidatesLive(rows, tombstones, score);
      DistinctUnderReorder(candidates, found, |found|);
      assert Take(|found|, found) == found;
      forall p: Scored | p in found
        ensures IsLive(rows, p.0)
      {
        assert p in multiset(found) && p in multiset(candidates);
        assert p in candidates;
      }
    }
  }

  lemma CandidatesLive(rows: seq<Row>, tombstones: seq<nat>, score: nat -> real)
    requires tombstones == TombstonesOf(rows)
    ensures AllLive(Candidates(0, |rows|, tombstones, score), rows)
    ensures DistinctIndices(Candidates(0, |rows|, tombstones, score))
  {
    hide Candidates;
    CandidatesExact(0, |rows|, tombstones, score);
    forall p: Scored | p in Candidates(0, |rows|, tombstones, score)
      ensures IsLive(rows, p.0)
    {
      LiveHere(rows, p.0);
    }
  }

  /** The rows that share a token with the query, with their keyword scores. */
  function KeywordHits(rows: seq<Row>, engine: Engine, q: Query): seq<Scored> {
    Bm25.NaiveHits(engine.ln, Documents(rows, engine.tokenize), TombstonesOf(rows), q.tokens, |rows|)
  }

  method ScanKeywords(rows: seq<Row>, engine: Engine, q: Query) returns (found: seq<Scored>)
    ensures IsTopK(found, KeywordHits(rows, engine, q), |rows|) && AllLive(found, rows) && DistinctIndices(found)
  {
    hide TombstonesOf;
    var docs, tombstones := Documents(rows, engine.tokenize), TombstonesOf(rows);
    var index := new Bm25.BM25Index.Build(engine.ln, docs, tombstones);
    found := index.Search(q.tokens, |rows|, docs, tombstones);
    ghost var hits := Bm25.NaiveHits(engine.ln, docs, tombstones, q.tokens, |docs|);
    assert index.ln == engine.ln;
    TopKExact(found, hits, |rows|);
    Bm25.NaiveHitsExact(engine.ln, docs, tombstones, q.tokens, |docs|);
    forall p: Scored | p in found
      ensures IsLive(rows, p.0)
    {
      assert p in multiset(found) && p in multiset(hits);
      assert p in hits;
      LiveHere(rows, p.0);
    }
  }

  /** What both stages found and how it was merged. */
  datatype Stages = Stages(vec: seq<Scored>, kw: seq<Scored>, items: seq<Scored>, results: seq<Scored>)

  /** The vector stage is the index's answer if it has nodes of the query's dimension, and the full scan
      otherwise; the keyword stage is all rows sharing a token; the results are the top k of their merged scores. */
  ghost predicate Merges(s: Stages, index: Option<Index>, rows: seq<Row>, engine: Engine, q: Query) {
    && s.vec == (if index.Some? && |index.value.vectors| > 0 && |index.value.vectors[0]| == q.dim
                 then engine.nearest(index.value) else FullScan(rows, q))
    && IsTopK(s.kw, KeywordHits(rows, engine, q), |rows|)
    && Tallies(s.items, Contributions(s.vec, s.kw, q.vectorWeight, q.keywordWeight))
    && IsTopK(s.results, s.items, q.k)
  }

  /** Every result is a live row and none comes twice. */
  method VectorKeywordSearch(index: Option<Index>, rows: seq<Row>, dim: nat, engine: Engine, q: Query)
    returns (results: seq<Scored>, ghost stages: Stages)
    requires Fresh(index, rows, dim) && SoundEngine(engine)
    ensures AllLive(results, rows) && DistinctIndices(results) && |results| <= q.k
    ensures Merges(stages, index, rows, engine, q) && stages.results == results
    ensures DistinctIndices(stages.vec) && DistinctIndices(stages.kw)
  {
    hide KeywordHits, FullScan, IsTopK, FindsNodes, TombstonesOf, SumFor, Lists, Contributions;
    var vec;
    if index.Some? && |index.value.vectors| > 0 && |index.value.vectors[0]| == q.dim {
      vec := engine.nearest(index.value);
      NodesAreLive(index.value, vec, rows);
    } else {
      vec := ScanVectors(rows, q);
    }
    var kw := ScanKeywords(rows, engine, q);
    ghost var items;
    results, items := MergeVectorKeyword(vec, kw, q.vectorWeight, q.keywordWeight, q.k);
    MergedAreLive(vec, kw, q.vectorWeight, q.keywordWeight, items, rows);
    TopIsLive(results, items, q.k, rows);
    stages := Stages(vec, kw, items, results);
  }

  lemma NodesAreLive(index: Index, found: seq<Scored>, rows: seq<Row>)
    requires FindsNodes(index, found) && Holds(index, rows)
    ensures AllLive(found, rows) && DistinctIndices(found)
  {
    forall p: Scored | p in found
      ensures IsLive(rows, p.0)
    {
      CandidatesAreLive(index, rows, p.0);
    }
  }

  /** Every contribution is for an index that one of the two stages found. */
  lemma ContributionsFound(vec: seq<Scored>, kw: seq<Scored>, vectorWeight: real, keywordWeight: real, m: nat)
    requires m < |vec| + |kw|
    ensures m < |Contributions(vec, kw, vectorWeight, keywordWeight)|
    ensures Contributions(vec, kw, vectorWeight, keywordWeight)[m].0 == if m < |vec| then vec[m].0 else kw[m - |vec|].0
  {
    hide Scale, Least, Greatest;
    if m < |vec| {
      assert Normalized(vec)[m].0 == vec[m].0;
    } else {
      assert Normalized(kw)[m - |vec|].0 == kw[m - |vec|].0;
    }
  }

  lemma MergedAreLive(vec: seq<Scored>, kw: seq<Scored>, vectorWeight: real, keywordWeight: real,
                      items: seq<Scored>, rows: seq<Row>)
    requires AllLive(vec, rows) && AllLive(kw, rows)
    requires Tallies(items, Contributions(vec, kw, vectorWeight, keywordWeight))
    ensures AllLive(items, rows)
  {
    hide Contributions, SumFor;
    var all := Contributions(vec, kw, vectorWeight, keywordWeight);
    ContributionCount(vec, kw, vectorWeight, keywordWeight);
    forall p: Scored | p in items
      ensures IsLive(rows, p.0)
    {
      var m :| 0 <= m < |all| && all[m].0 == p.0;
      ContributionsFound(vec, kw, vectorWeight, keywordWeight, m);
      assert m < |vec| ==> vec[m] in vec;
      assert m >= |vec| ==> kw[m - |vec|] in kw;
    }
  }

  lemma ContributionCount(vec: seq<Scored>, kw: seq<Scored>, vectorWeight: real, keywordWeight: real)
    ensures |Contributions(vec, kw, vectorWeight, keywordWeight)| == |vec| + |kw|
  {
  }

  lemma TopIsLive(results: seq<Scored>, items: seq<Scored>, k: nat, rows: seq<Row>)
    requires IsTopK(results, items, k) && AllLive(items, rows) && DistinctIndices(items)
    ensures AllLive(results, rows) && DistinctIndices(results) && |results| <= k
  {
    TopKExact(results, items, k);
    forall p: Scored | p in results
      ensures IsLive(rows, p.0)
    {
      assert p in multiset(results) && p in multiset(items);
      assert p in items;
    }
  }

  function Activated(results: seq<Scored>, rows: seq<Row>, sqrt: real -> real): (r: seq<Scored>)
    requires forall i :: 0 <= i < |results| ==> results[i].0 < |rows|
    ensures |r| == |results| && forall i :: 0 <= i < |results| ==> r[i].0 == results[i].0
  {
    seq(|results|, i requires 0 <= i < |results| => (results[i].0, results[i].1 * sqrt(rows[results[i].0].weight)))
  }

  /** Every hit is a live row, and no row is hit twice. */
  ghost predicate SoundHits(hits: seq<nat>, rows: seq<Row>) {
    && (forall i :: 0 <= i < |hits| ==> IsLive(rows, hits[i]))
    && (forall i, j :: 0 <= i < j < |hits| ==> hits[i] != hits[j])
  }

  /** The score times the root of the weight is no less for one result than for another. */
  ghost predicate NoLessActive(p: Scored, q: Scored, rows: seq<Row>, sqrt: real -> real) {
    p.0 < |rows| && q.0 < |rows| && p.1 * sqrt(rows[p.0].weight) >= q.1 * sqrt(rows[q.0].weight)
  }

  /** The hits are the results' rows, those with the greatest score times the root of the weight first. */
  ghost predicate RanksHits(hits: seq<nat>, results: seq<Scored>, rows: seq<Row>, sqrt: real -> real) {
    && |hits| == |results| && (forall r: nat :: r in hits <==> Lists(results, r))
    && forall i, j, p, q ::
      0 <= i < j < |hits| && p in results && q in results && p.0 == hits[i] && q.0 == hits[j] ==>
        NoLessActive(p, q, rows, sqrt)
  }

  lemma ActivatedRanks(hits: seq<nat>, results: seq<Scored>, rows: seq<Row>, sqrt: real -> real, ranked: seq<Scored>)
    requires DistinctIndices(results) && forall i :: 0 <= i < |results| ==> results[i].0 < |rows|
    requires multiset(ranked) == multiset(Activated(results, rows, sqrt)) && Sorted(ranked, Descending)
    requires |hits| == |ranked| == |results| && forall i :: 0 <= i < |hits| ==> hits[i] == ranked[i].0
    ensures RanksHits(hits, results, rows, sqrt)
  {
    var activated := Activated(results, rows, sqrt);
    forall r: nat
      ensures r in hits <==> Lists(results, r)
    {
      if r in hits {
        var i :| 0 <= i < |hits| && hits[i] == r;
        var m := RankedFrom(ranked, activated, i);
        assert results[m].0 == r;
      }
      if Lists(results, r) {
        var m :| 0 <= m < |results| && results[m].0 == r;
        var i := RankedFrom(activated, ranked, m);
        assert hits[i] == r;
      }
    }
    forall i, j, p, q |
      0 <= i < j < |hits| && p in results && q in results && p.0 == hits[i] && q.0 == hits[j]
      ensures NoLessActive(p, q, rows, sqrt)
    {
      var x := RankedFrom(ranked, activated, i);
      var y := RankedFrom(ranked, activated, j);
      OnlyOne(results, p, x);
      OnlyOne(results, q, y);
      assert Descending(ranked[i]) <= Descending(ranked[j]);
    }
  }

  lemma OnlyOne(xs: seq<Scored>, p: Scored, i: nat)
    requires DistinctIndices(xs) && i < |xs| && p in xs && p.0 == xs[i].0
    ensures p == xs[i]
  {
  }

  lemma RankedFrom(xs: seq<Scored>, ys: seq<Scored>, i: nat) returns (m: nat)
    requires multiset(xs) == multiset(ys) && i < |xs|
    ensures m < |ys| && ys[m] == xs[i]
  {
    assert xs[i] in multiset(xs) && xs[i] in multiset(ys);
    assert xs[i] in ys;
    m :| 0 <= m < |ys| && ys[m] == xs[i];
  }

  method RankHits(results: seq<Scored>, rows: seq<Row>, sqrt: real -> real) returns (hits: seq<nat>)
    requires AllLive(results, rows) && DistinctIndices(results)
    ensures SoundHits(hits, rows) && |hits| == |results| && RanksHits(hits, results, rows, sqrt)
  {
    hide StableSort, RanksHits;
    assert forall i :: 0 <= i < |results| ==> results[i] in results;
    var activated := Activated(results, rows, sqrt);
    var ranked := StableSort(activated, Descending);
    SortIsStableSort(activated, Descending);
    DistinctUnderReorder(activated, ranked, |ranked|);
    assert Take(|ranked|, ranked) == ranked;
    assert |multiset(ranked)| == |multiset(activated)|;
    hits := seq(|ranked|, i requires 0 <= i < |ranked| => ranked[i].0);
    forall i | 0 <= i < |hits|
      ensures IsLive(rows, hits[i])
    {
      var j := RankedFrom(ranked, activated, i);
      assert results[j] in results;
    }
    ActivatedRanks(hits, results, rows, sqrt, ranked);
  }
}
