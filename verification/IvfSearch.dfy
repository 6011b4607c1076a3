/** Probing an inverted-file index. */
module IvfSearch {
  import opened Sorting
  import opened VectorSearch
  import opened InvertedFile

  /** The vectors of the probed lists, list after list. */
  function Stream(lists: seq<seq<nat>>, probe: seq<nat>): seq<nat> {
    if probe == [] then []
    else
      var last := probe[|probe| - 1];
      Stream(lists, probe[..|probe| - 1]) + if last < |lists| then lists[last] else []
  }

  lemma StreamSnoc(lists: seq<seq<nat>>, probe: seq<nat>, p: nat)
    requires p < |probe| && probe[p] < |lists|
    ensures Stream(lists, probe[..p + 1]) == Stream(lists, probe[..p]) + lists[probe[p]]
    ensures Stream(lists, probe[..0]) == []
  {
    assert probe[..p + 1][..p] == probe[..p];
  }

  /** First occurrences only. */
  function Dedup(ids: seq<nat>): (r: seq<nat>)
    ensures Distinct(r) && forall v :: v in r <==> v in ids
  {
    if ids == [] then []
    else
      var before := Dedup(ids[..|ids| - 1]);
      var last := ids[|ids| - 1];
      assert ids == ids[..|ids| - 1] + [last];
      if last in ids[..|ids| - 1] then before else before + [last]
  }

  /** The live ones of `ids` with their scores. */
  function HitsOf(ids: seq<nat>, tombstones: seq<nat>, score: nat -> real): seq<Scored> {
    if ids == [] then []
    else
      var before, last := HitsOf(ids[..|ids| - 1], tombstones, score), ids[|ids| - 1];
      if Live(tombstones, last) then before + [(last, score(last))] else before
  }

  lemma HitsOfSnoc(ids: seq<nat>, v: nat, tombstones: seq<nat>, score: nat -> real)
    ensures HitsOf(ids + [v], tombstones, score) ==
      if Live(tombstones, v) then HitsOf(ids, tombstones, score) + [(v, score(v))] else HitsOf(ids, tombstones, score)
  {
    assert (ids + [v])[..|ids|] == ids;
  }

  /** The `nprobe` most similar clusters. */
  function Probe(clusters: nat, similarity: nat -> real, nprobe: nat): seq<nat> {
    Take(nprobe, ClusterOrder(clusters, similarity))
  }

  function SearchResult(lists: seq<seq<nat>>, similarity: nat -> real, tombstones: seq<nat>, score: nat -> real,
                        nprobe: nat, k: nat): seq<Scored>
  {
    Take(k, StableSort(HitsOf(Stream(lists, Probe(|lists|, similarity, nprobe)), tombstones, score), Descending))
  }

  function RairsResult(seil: seq<seq<SharedEntry>>, similarity: nat -> real, tombstones: seq<nat>, score: nat -> real,
                       nprobe: nat, k: nat): seq<Scored>
  {
    var probe := Probe(|seil|, similarity, nprobe);
    Take(k, StableSort(HitsOf(Dedup(Stream(IdLists(seil), probe)), tombstones, score), Descending))
  }

  method Search(lists: seq<seq<nat>>, similarity: nat -> real, tombstones: seq<nat>, score: nat -> real, nprobe: nat,
                k: nat)
    returns (results: seq<Scored>)
    ensures results == SearchResult(lists, similarity, tombstones, score, nprobe, k)
  {
    hide StableSort, Probe, HitsOf, Live, Stream, Distinct;
    var clusters := Probe(|lists|, similarity, nprobe);
    ProbeExact(|lists|, similarity, nprobe);
    results := [];
    HitsOfNone(tombstones, score);
    StreamNone(lists);
    assert clusters[..0] == [];
    for p := 0 to |clusters|
      invariant results == HitsOf(Stream(lists, clusters[..p]), tombstones, score)
    {
      var list := lists[clusters[p]];
      ghost var before := Stream(lists, clusters[..p]);
      StreamSnoc(lists, clusters, p);
      assert before + [] == before;
      for m := 0 to |list|
        invariant results == HitsOf(before + list[..m], tombstones, score)
      {
        HitsOfSnoc(before + list[..m], list[m], tombstones, score);
        assert before + list[..m] + [list[m]] == before + list[..m + 1];
        if Live(tombstones, list[m]) { results := results + [(list[m], score(list[m]))]; }
      }
      assert list[..|list|] == list;
    }
    assert clusters[..|clusters|] == clusters;
    results := Take(k, StableSort(results, Descending));
  }

  lemma StreamNone(lists: seq<seq<nat>>)
    ensures Stream(lists, []) == []
  {
  }

  lemma HitsOfNone(tombstones: seq<nat>, score: nat -> real)
    ensures HitsOf([], tombstones, score) == []
  {
  }

  lemma ProbeExact(clusters: nat, similarity: nat -> real, nprobe: nat)
    ensures var probe := Probe(clusters, similarity, nprobe);
      Distinct(probe) && (forall i :: 0 <= i < |probe| ==> probe[i] < clusters) &&
      (nprobe >= clusters ==> forall c: nat :: c < clusters ==> c in probe)
  {
    ClusterOrderPermutes(clusters, similarity);
    hide ClusterOrder;
    var probe := Probe(clusters, similarity, nprobe);
    assert forall i :: 0 <= i < |probe| ==> probe[i] in ClusterOrder(clusters, similarity);
  }

  /** No cluster that is not probed is more similar than one that is. */
  lemma ProbeBest(clusters: nat, similarity: nat -> real, nprobe: nat, c: nat, d: nat)
    ensures |Probe(clusters, similarity, nprobe)| == if nprobe < clusters then nprobe else clusters
    ensures c in Probe(clusters, similarity, nprobe) && d < clusters && d !in Probe(clusters, similarity, nprobe) ==>
      similarity(c) >= similarity(d)
  {
    ClusterOrderPermutes(clusters, similarity);
    ClusterOrderDescends(clusters, similarity);
    hide ClusterOrder;
    var order, probe := ClusterOrder(clusters, similarity), Probe(clusters, similarity, nprobe);
    if c in probe && d < clusters && d !in probe {
      var i :| 0 <= i < |probe| && probe[i] == c;
      assert d in order;
      var j :| 0 <= j < |order| && order[j] == d;
      assert forall m :: 0 <= m < |probe| ==> order[m] == probe[m] && probe[m] in probe;
    }
  }

  /** The same scan over the shared lists; a set of seen vectors skips repeats. */
  method SearchRairs(seil: seq<seq<SharedEntry>>, similarity: nat -> real, tombstones: seq<nat>, score: nat -> real,
                     nprobe: nat, k: nat)
    returns (results: seq<Scored>)
    ensures results == RairsResult(seil, similarity, tombstones, score, nprobe, k)
  {
    hide StableSort, Probe, HitsOf, Live, Dedup, Stream, Distinct;
    var clusters := Probe(|seil|, similarity, nprobe);
    ProbeExact(|seil|, similarity, nprobe);
    results := [];
    var seen := {};
    ghost var lists := IdLists(seil);
    DedupNone();
    HitsOfNone(tombstones, score);
    StreamNone(lists);
    assert clusters[..0] == [];
    for p := 0 to |clusters|
      invariant results == HitsOf(Dedup(Stream(lists, clusters[..p])), tombstones, score)
      invariant forall v :: v in seen <==> v in Stream(lists, clusters[..p])
    {
      StreamSnoc(lists, clusters, p);
      seen, results := ScanShared(seil[clusters[p]], Stream(lists, clusters[..p]), tombstones, score, seen, results);
    }
    assert clusters[..|clusters|] == clusters;
    results := Take(k, StableSort(results, Descending));
  }

  method ScanShared(list: seq<SharedEntry>, ghost before: seq<nat>, tombstones: seq<nat>, score: nat -> real,
                    seen0: set<nat>, results0: seq<Scored>) returns (seen: set<nat>, results: seq<Scored>)
    requires results0 == HitsOf(Dedup(before), tombstones, score) && forall v :: v in seen0 <==> v in before
    ensures results == HitsOf(Dedup(before + VectorIds(list)), tombstones, score)
    ensures forall v :: v in seen <==> v in before + VectorIds(list)
  {
    hide HitsOf, Live, Dedup, Distinct;
    seen, results := seen0, results0;
    ghost var ids := VectorIds(list);
    assert before + ids[..0] == before;
    for m := 0 to |list|
      invariant results == HitsOf(Dedup(before + ids[..m]), tombstones, score)
      invariant forall v :: v in seen <==> v in before + ids[..m]
    {
      var idx := list[m].vectorIdx;
      DedupSnoc(before + ids[..m], idx);
      assert before + ids[..m] + [idx] == before + ids[..m + 1];
      if idx in seen { continue; }
      seen := seen + {idx};
      HitsOfSnoc(Dedup(before + ids[..m]), idx, tombstones, score);
      if Live(tombstones, idx) { results := results + [(idx, score(idx))]; }
    }
    assert ids[..|ids|] == ids;
  }

  function IdLists(seil: seq<seq<SharedEntry>>): (lists: seq<seq<nat>>)
    ensures |lists| == |seil| && forall c :: 0 <= c < |seil| ==> lists[c] == VectorIds(seil[c])
  {
    seq(|seil|, c requires 0 <= c < |seil| => VectorIds(seil[c]))
  }

  lemma DedupNone()
    ensures Dedup([]) == []
  {
  }

  lemma DedupSnoc(ids: seq<nat>, v: nat)
    ensures Dedup(ids + [v]) == if v in ids then Dedup(ids) else Dedup(ids) + [v]
  {
    assert (ids + [v])[..|ids|] == ids;
  }

  // ---- Exactness -----------------------------------------------------------------

  /** Each of `ids` that is live occurs once, with its own score, and nothing else does. */
  ghost predicate Collects(xs: seq<Scored>, ids: set<nat>, tombstones: seq<nat>, score: nat -> real) {
    DistinctIndices(xs) &&
    forall p: Scored :: p in xs <==> p.0 in ids && Live(tombstones, p.0) && p.1 == score(p.0)
  }

  lemma {:induction false} HitsOfCollects(ids: seq<nat>, all: set<nat>, tombstones: seq<nat>, score: nat -> real)
    requires Distinct(ids) && forall v :: v in ids <==> v in all
    ensures Collects(HitsOf(ids, tombstones, score), all, tombstones, score)
  {
    hide Live;
    if ids == [] {
    } else {
      var before, last := ids[..|ids| - 1], ids[|ids| - 1];
      assert ids == before + [last];
      assert last !in before;
      HitsOfCollects(before, all - {last}, tombstones, score);
      HitsOfSnoc(before, last, tombstones, score);
      hide HitsOf;
      CollectsSnoc(HitsOf(before, tombstones, score), all - {last}, last, tombstones, score);
      assert all - {last} + {last} == all;
    }
  }

  lemma CollectsSnoc(xs: seq<Scored>, ids: set<nat>, v: nat, tombstones: seq<nat>, score: nat -> real)
    requires Collects(xs, ids, tombstones, score) && v !in ids
    ensures Collects(if Live(tombstones, v) then xs + [(v, score(v))] else xs, ids + {v}, tombstones, score)
  {
    hide Live;
    forall i | 0 <= i < |xs|
      ensures xs[i].0 != v
    {
      assert xs[i] in xs;
    }
  }

  /** Two such collections of the same ids have the same elements. */
  lemma CollectsSame(xs: seq<Scored>, ys: seq<Scored>, ids: set<nat>, tombstones: seq<nat>, score: nat -> real)
    requires Collects(xs, ids, tombstones, score) && Collects(ys, ids, tombstones, score)
    ensures multiset(xs) == multiset(ys)
  {
    SameMembers(xs, ys);
  }

  lemma CandidatesCollect(n: nat, tombstones: seq<nat>, score: nat -> real)
    ensures Collects(Candidates(0, n, tombstones, score), Range(n), tombstones, score)
  {
    CandidatesExact(0, n, tombstones, score);
    hide Candidates, Live;
    var c := Candidates(0, n, tombstones, score);
    forall p: Scored
      ensures p in c <==> p.0 in Range(n) && Live(tombstones, p.0) && p.1 == score(p.0)
    {
      if p.0 < n && Live(tombstones, p.0) {
        assert Lists(c, p.0);
        var m :| 0 <= m < |c| && c[m].0 == p.0;
        assert c[m] == (p.0, score(p.0));
      }
    }
  }

  lemma {:induction false} StreamMembers(lists: seq<seq<nat>>, probe: seq<nat>, v: nat)
    requires forall i :: 0 <= i < |probe| ==> probe[i] < |lists|
    ensures v in Stream(lists, probe) <==> exists i :: 0 <= i < |probe| && v in lists[probe[i]]
  {
    if probe != [] {
      var before, last := probe[..|probe| - 1], probe[|probe| - 1];
      StreamMembers(lists, before, v);
      assert v in Stream(lists, probe) <==> v in Stream(lists, before) || v in lists[last];
      if i :| 0 <= i < |before| && v in lists[before[i]] { assert v in lists[probe[i]]; }
    }
  }

  lemma {:induction false} StreamDistinct(lists: seq<seq<nat>>, assignments: seq<nat>, probe: seq<nat>)
    requires Partitions(lists, assignments) && Distinct(probe) && forall i :: 0 <= i < |probe| ==> probe[i] < |lists|
    ensures Distinct(Stream(lists, probe))
  {
    if probe != [] {
      var before, last := probe[..|probe| - 1], probe[|probe| - 1];
      StreamDistinct(lists, assignments, before);
      forall v | v in lists[last]
        ensures v !in Stream(lists, before)
      {
        StreamMembers(lists, before, v);
      }
      DistinctConcat(Stream(lists, before), lists[last]);
    }
  }

  lemma DistinctConcat(a: seq<nat>, b: seq<nat>)
    requires Distinct(a) && Distinct(b) && forall v :: v in b ==> v !in a
    ensures Distinct(a + b)
  {
    forall i, j | 0 <= i < j < |a + b|
      ensures (a + b)[i] != (a + b)[j]
    {
      if i < |a| <= j { assert b[j - |a|] in b && a[i] in a; }
    }
  }

  /** Probing every list with the plain search is exhaustive search. */
  lemma SearchAllIsExact(index: Index, assignments: seq<nat>, similarity: nat -> real, tombstones: seq<nat>,
                         score: nat -> real, nprobe: nat, k: nat)
    requires Trained(index, assignments) && nprobe >= index.clusters
    ensures IsTopK(SearchResult(index.lists, similarity, tombstones, score, nprobe, k),
                   Candidates(0, |assignments|, tombstones, score), k)
  {
    hide Probe, Candidates, IsTopK, Live, HitsOf, StableSort, Take;
    var probe := Probe(index.clusters, similarity, nprobe);
    ProbeExact(index.clusters, similarity, nprobe);
    var ids := Stream(index.lists, probe);
    StreamDistinct(index.lists, assignments, probe);
    hide Stream;
    forall v: nat
      ensures v in ids <==> v in Range(|assignments|)
    {
      StreamMembers(index.lists, probe, v);
      if v < |assignments| { assert assignments[v] in probe; }
    }
    ExhaustiveIsTopK(ids, |assignments|, tombstones, score, k);
  }

  /** Probing every shared list with deduplication is exhaustive search too. */
  lemma SearchRairsAllIsExact(index: Index, assignments: seq<nat>, similarity: nat -> real, tombstones: seq<nat>,
                              score: nat -> real, nprobe: nat, k: nat)
    requires Trained(index, assignments) && nprobe >= index.clusters
    ensures IsTopK(RairsResult(index.seil, similarity, tombstones, score, nprobe, k),
                   Candidates(0, |assignments|, tombstones, score), k)
  {
    hide Probe, Candidates, IsTopK, Live, HitsOf, StableSort, Take, Dedup, Stream;
    var probe := Probe(index.clusters, similarity, nprobe);
    ProbeExact(index.clusters, similarity, nprobe);
    var lists := IdLists(index.seil);
    var ids := Dedup(Stream(lists, probe));
    forall v: nat
      ensures v in ids <==> v in Range(|assignments|)
    {
      StreamMembers(lists, probe, v);
      if v < |assignments| {
        assert assignments[v] in HoldingLists(index.seil, v) && assignments[v] in probe;
      }
    }
    ExhaustiveIsTopK(ids, |assignments|, tombstones, score, k);
  }

  lemma ExhaustiveIsTopK(ids: seq<nat>, n: nat, tombstones: seq<nat>, score: nat -> real, k: nat)
    requires Distinct(ids) && forall v: nat :: v in ids <==> v in Range(n)
    ensures IsTopK(Take(k, StableSort(HitsOf(ids, tombstones, score), Descending)), Candidates(0, n, tombstones, score),
                   k)
  {
    HitsOfCollects(ids, Range(n), tombstones, score);
    CandidatesCollect(n, tombstones, score);
    CollectsSame(HitsOf(ids, tombstones, score), Candidates(0, n, tombstones, score), Range(n), tombstones, score);
  }

  /** For any number of probes: the plain search returns the best live vectors of the probed clusters, and the
      shared search the best live vectors held by a probed shared list. */
  lemma SearchProbesExactly(index: Index, assignments: seq<nat>, similarity: nat -> real, tombstones: seq<nat>,
                            score: nat -> real, nprobe: nat, k: nat)
    returns (hits: seq<Scored>, shared: seq<Scored>)
    requires Trained(index, assignments)
    ensures var probe := Probe(index.clusters, similarity, nprobe);
      && Collects(hits, (set v: nat | v < |assignments| && assignments[v] in probe), tombstones, score)
      && Collects(shared, (set v: nat | v < |assignments| && HeldBy(index.seil, v, probe)), tombstones, score)
    ensures Best(SearchResult(index.lists, similarity, tombstones, score, nprobe, k), hits, k)
    ensures Best(RairsResult(index.seil, similarity, tombstones, score, nprobe, k), shared, k)
  {
    hide Probe, Best, Live, HitsOf, StableSort, Take, Dedup, Collects;
    var probe := Probe(index.clusters, similarity, nprobe);
    ProbeExact(index.clusters, similarity, nprobe);
    var ids, sharedIds := Stream(index.lists, probe), Dedup(Stream(IdLists(index.seil), probe));
    StreamDistinct(index.lists, assignments, probe);
    hide Stream;
    forall v: nat
      ensures v in ids <==> v < |assignments| && assignments[v] in probe
      ensures v in sharedIds <==> v < |assignments| && HeldBy(index.seil, v, probe)
    {
      ProbedVectors(index, assignments, probe, v);
    }
    hits, shared := HitsOf(ids, tombstones, score), HitsOf(sharedIds, tombstones, score);
    HitsOfCollects(ids, (set v: nat | v < |assignments| && assignments[v] in probe), tombstones, score);
    HitsOfCollects(sharedIds, (set v: nat | v < |assignments| && HeldBy(index.seil, v, probe)), tombstones, score);
    TopIsBest(hits, k);
    TopIsBest(shared, k);
  }

  ghost predicate HeldBy(seil: seq<seq<SharedEntry>>, v: nat, probe: seq<nat>) {
    exists c :: c in HoldingLists(seil, v) && c in probe
  }

  lemma ProbedVectors(index: Index, assignments: seq<nat>, probe: seq<nat>, v: nat)
    requires Trained(index, assignments) && forall i :: 0 <= i < |probe| ==> probe[i] < index.clusters
    ensures v in Stream(index.lists, probe) <==> v < |assignments| && assignments[v] in probe
    ensures v in Stream(IdLists(index.seil), probe) <==> v < |assignments| && HeldBy(index.seil, v, probe)
  {
    hide Stream;
    StreamMembers(index.lists, probe, v);
    StreamMembers(IdLists(index.seil), probe, v);
    if v in Stream(IdLists(index.seil), probe) {
      var i :| 0 <= i < |probe| && v in IdLists(index.seil)[probe[i]];
      assert probe[i] in HoldingLists(index.seil, v);
    }
  }

  lemma TopIsBest(hits: seq<Scored>, k: nat)
    ensures Best(Take(k, StableSort(hits, Descending)), hits, k)
  {
    hide StableSort, Best;
    SortIsStableSort(hits, Descending);
    SortedTakeIsBest(StableSort(hits, Descending), hits, k);
  }

  /** Whatever is probed, no vector is reported twice, and only live vectors are, with their scores. */
  lemma SearchSound(index: Index, assignments: seq<nat>, similarity: nat -> real, tombstones: seq<nat>,
                    score: nat -> real, nprobe: nat, k: nat)
    requires Trained(index, assignments)
    ensures HitsSound(SearchResult(index.lists, similarity, tombstones, score, nprobe, k), tombstones, score)
    ensures HitsSound(RairsResult(index.seil, similarity, tombstones, score, nprobe, k), tombstones, score)
  {
    hide Probe, HitsSound, HitsOf, StableSort, Take, Dedup, Stream;
    var probe := Probe(index.clusters, similarity, nprobe);
    ProbeExact(index.clusters, similarity, nprobe);
    StreamDistinct(index.lists, assignments, probe);
    DistinctIdsSound(Stream(index.lists, probe), tombstones, score, k);
    DistinctIdsSound(Dedup(Stream(IdLists(index.seil), probe)), tombstones, score, k);
  }

  ghost predicate HitsSound(r: seq<Scored>, tombstones: seq<nat>, score: nat -> real) {
    DistinctIndices(r) && forall i :: 0 <= i < |r| ==> Live(tombstones, r[i].0) && r[i].1 == score(r[i].0)
  }

  lemma DistinctIdsSound(ids: seq<nat>, tombstones: seq<nat>, score: nat -> real, k: nat)
    requires Distinct(ids)
    ensures HitsSound(Take(k, StableSort(HitsOf(ids, tombstones, score), Descending)), tombstones, score)
  {
    hide StableSort, HitsOf, Live, Take;
    var hits := HitsOf(ids, tombstones, score);
    HitsOfCollects(ids, (set v | v in ids), tombstones, score);
    var r := Take(k, StableSort(hits, Descending));
    assert IsTopK(r, hits, k);
    TopKExact(r, hits, k);
    forall i | 0 <= i < |r|
      ensures Live(tombstones, r[i].0) && r[i].1 == score(r[i].0)
    {
      assert r[i] in multiset(r);
      assert r[i] in hits;
    }
  }
}
