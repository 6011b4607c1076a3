/** Exhaustive vector search: the sequential scan and the chunked parallel scan.
    The similarity of entry `i` to the query is the function `score`. */
module VectorSearch {
  import opened Sorting

  type Scored = (nat, real)

  /** Sort key for "score descending". */
  function Descending(p: Scored): real { -p.1 }

  /** Entries past the end of the tombstone array count as live. */
  predicate Live(tombstones: seq<nat>, i: nat) { i >= |tombstones| || tombstones[i] == 0 }

  /** The live entries of `lo..hi` with their scores, in index order. */
  function Candidates(lo: nat, hi: nat, tombstones: seq<nat>, score: nat -> real): (r: seq<Scored>)
    requires lo <= hi
    decreases hi - lo
  {
    if lo == hi then []
    else
      var before := Candidates(lo, hi - 1, tombstones, score);
      if Live(tombstones, hi - 1) then before + [(hi - 1, score(hi - 1))] else before
  }

  function Ranking(n: nat, tombstones: seq<nat>, score: nat -> real): seq<Scored> {
    StableSort(Candidates(0, n, tombstones, score), Descending)
  }

  /** Every live index once, in increasing order, with its own score, and nothing else. */
  ghost predicate ListsLive(c: seq<Scored>, lo: nat, hi: nat, tombstones: seq<nat>, score: nat -> real) {
    (forall i :: 0 <= i < |c| ==> lo <= c[i].0 < hi && Live(tombstones, c[i].0) && c[i].1 == score(c[i].0)) &&
    (forall i, j :: 0 <= i < j < |c| ==> c[i].0 < c[j].0) &&
    (forall i :: lo <= i < hi && Live(tombstones, i) ==> Lists(c, i))
  }

  predicate Lists(c: seq<Scored>, i: nat) { exists m :: 0 <= m < |c| && c[m].0 == i }

  lemma NothingToList(lo: nat, tombstones: seq<nat>, score: nat -> real)
    ensures ListsLive([], lo, lo, tombstones, score)
  {
  }

  lemma ListsLiveExtends(c: seq<Scored>, lo: nat, hi: nat, tombstones: seq<nat>, score: nat -> real)
    requires lo <= hi && ListsLive(c, lo, hi, tombstones, score)
    ensures ListsLive(if Live(tombstones, hi) then c + [(hi, score(hi))] else c, lo, hi + 1, tombstones, score)
  {
    hide Live;
    if Live(tombstones, hi) {
      var longer := c + [(hi, score(hi))];
      assert longer[|c|].0 == hi;
      forall i | lo <= i < hi && Live(tombstones, i)
        ensures Lists(longer, i)
      {
        assert Lists(c, i);
        var m :| 0 <= m < |c| && c[m].0 == i;
        assert longer[m].0 == i;
      }
    }
  }

  lemma {:induction false} CandidatesExact(lo: nat, hi: nat, tombstones: seq<nat>, score: nat -> real)
    requires lo <= hi
    ensures ListsLive(Candidates(lo, hi, tombstones, score), lo, hi, tombstones, score)
    decreases hi - lo
  {
    hide ListsLive;
    if lo == hi {
      NothingToList(lo, tombstones, score);
    } else {
      CandidatesExact(lo, hi - 1, tombstones, score);
      ListsLiveExtends(Candidates(lo, hi - 1, tombstones, score), lo, hi - 1, tombstones, score);
    }
  }

  lemma {:induction false} CandidatesSplit(lo: nat, mid: nat, hi: nat, tombstones: seq<nat>, score: nat -> real)
    requires lo <= mid <= hi
    ensures Candidates(lo, hi, tombstones, score) ==
            Candidates(lo, mid, tombstones, score) + Candidates(mid, hi, tombstones, score)
    decreases hi - mid
  {
    if mid < hi { CandidatesSplit(lo, mid, hi - 1, tombstones, score); }
  }

  /** The sequential scan: four entries at a time, then the remainder, then one sort. */
  method CosineSimilarityBatch(queryNorm: real, n: nat, tombstones: seq<nat>, score: nat -> real)
    returns (results: seq<Scored>)
    ensures results == if queryNorm == 0.0 then [] else Ranking(n, tombstones, score)
  {
    if queryNorm == 0.0 { return []; }
    results := [];
    var chunks := n / 4;
    for chunk := 0 to chunks
      invariant results == Candidates(0, 4 * chunk, tombstones, score)
    {
      var base := chunk * 4;
      for j := 0 to 4
        invariant results == Candidates(0, base + j, tombstones, score)
      {
        var i := base + j;
        if i < |tombstones| && tombstones[i] != 0 { continue; }
        results := results + [(i, score(i))];
      }
    }
    for i := chunks * 4 to n
      invariant results == Candidates(0, i, tombstones, score)
    {
      if i < |tombstones| && tombstones[i] != 0 { continue; }
      results := results + [(i, score(i))];
    }
    results := StableSort(results, Descending);
  }

  /** The parallel scan.  Each chunk is scanned, sorted and cut on its own; the
      chunk results are joined in chunk order, sorted again and cut again. */
  method ParallelCosineBatch(queryNorm: real, n: nat, tombstones: seq<nat>, score: nat -> real, k: nat, threads: nat)
    returns (results: seq<Scored>)
    ensures results == if queryNorm == 0.0 then [] else Take(k, Ranking(n, tombstones, score))
  {
    hide ChunkTops, Concat, StableSort, Take, Candidates;
    if queryNorm == 0.0 { return []; }
    var cores := if threads < 1 then 1 else threads;
    var chunkSize := (n + cores - 1) / cores;
    if chunkSize == 0 {
      ZeroChunkMeansEmpty(n, cores);
      NothingScanned(k, tombstones, score);
      return [];
    }
    var all: seq<Scored> := [];
    ghost var chunks: seq<seq<Scored>> := [];
    NothingScanned(k, tombstones, score);
    var base := 0;
    while base < n
      invariant base <= n
      invariant all == ChunkTops(k, chunks, Descending)
      invariant Concat(chunks) == Candidates(0, base, tombstones, score)
      decreases n - base
    {
      var end := if base + chunkSize < n then base + chunkSize else n;
      var chunk := ScanChunk(base, end, tombstones, score);
      AppendChunk(k, chunks, chunk);
      AppendToConcat(chunks, chunk);
      CandidatesSplit(0, base, end, tombstones, score);
      all := all + Take(k, StableSort(chunk, Descending));
      chunks := chunks + [chunk];
      base := end;
    }
    ChunkedTopK(k, chunks, Descending);
    results := Take(k, StableSort(all, Descending));
  }

  method ScanChunk(base: nat, end: nat, tombstones: seq<nat>, score: nat -> real) returns (chunk: seq<Scored>)
    requires base <= end
    ensures chunk == Candidates(base, end, tombstones, score)
  {
    chunk := [];
    for i := base to end
      invariant chunk == Candidates(base, i, tombstones, score)
    {
      if i < |tombstones| && tombstones[i] != 0 { continue; }
      chunk := chunk + [(i, score(i))];
    }
  }

  lemma ZeroChunkMeansEmpty(n: nat, cores: nat)
    requires cores > 0 && (n + cores - 1) / cores == 0
    ensures n == 0
  {
    assert n + cores - 1 == (n + cores - 1) / cores * cores + (n + cores - 1) % cores;
  }

  lemma NothingScanned(k: nat, tombstones: seq<nat>, score: nat -> real)
    ensures Candidates(0, 0, tombstones, score) == [] && Take(k, Ranking(0, tombstones, score)) == []
    ensures ChunkTops(k, [], Descending) == [] && Concat<Scored>([]) == []
  {
  }

  lemma Regroup(a: seq<Scored>, b: seq<Scored>, c: seq<Scored>)
    ensures a + (b + c) == a + b + c
  {
  }

  lemma {:induction false} AppendChunk(k: nat, chunks: seq<seq<Scored>>, chunk: seq<Scored>)
    ensures ChunkTops(k, chunks + [chunk], Descending) ==
            ChunkTops(k, chunks, Descending) + Take(k, StableSort(chunk, Descending))
  {
    hide StableSort, Take;
    if chunks == [] {
      assert [chunk][1..] == [];
      assert chunks + [chunk] == [chunk];
    } else {
      assert (chunks + [chunk])[1..] == chunks[1..] + [chunk];
      AppendChunk(k, chunks[1..], chunk);
      Regroup(Take(k, StableSort(chunks[0], Descending)), ChunkTops(k, chunks[1..], Descending),
              Take(k, StableSort(chunk, Descending)));
    }
  }

  lemma {:induction false} AppendToConcat(chunks: seq<seq<Scored>>, chunk: seq<Scored>)
    ensures Concat(chunks + [chunk]) == Concat(chunks) + chunk
  {
    if chunks == [] {
      assert [chunk][1..] == [];
      assert chunks + [chunk] == [chunk];
    } else {
      assert (chunks + [chunk])[1..] == chunks[1..] + [chunk];
      AppendToConcat(chunks[1..], chunk);
      Regroup(chunks[0], Concat(chunks[1..]), chunk);
    }
  }

  // ---- Rankings whose input order is not fixed -------------------------------

  /** `r` is the top k of some arrangement of `candidates`. */
  ghost predicate IsTopK(r: seq<Scored>, candidates: seq<Scored>, k: nat) {
    exists p: seq<Scored> :: multiset(p) == multiset(candidates) && r == Take(k, StableSort(p, Descending))
  }

  function Scores(xs: seq<Scored>): (s: seq<real>)
    ensures |s| == |xs| && forall i :: 0 <= i < |xs| ==> s[i] == xs[i].1
  {
    seq(|xs|, i requires 0 <= i < |xs| => xs[i].1)
  }

  ghost predicate DistinctIndices(xs: seq<Scored>) {
    forall i, j :: 0 <= i < j < |xs| ==> xs[i].0 != xs[j].0
  }

  /** `r` are `k` best candidates, best first: no candidate left out scores higher than one taken. */
  ghost predicate Best(r: seq<Scored>, candidates: seq<Scored>, k: nat) {
    && |r| == (if k < |candidates| then k else |candidates|) && multiset(r) <= multiset(candidates)
    && (forall i, j :: 0 <= i < j < |r| ==> r[i].1 >= r[j].1)
    && (forall p, q :: multiset(candidates)[p] > multiset(r)[p] && q in r ==> p.1 <= q.1)
  }

  lemma LeftOut(sp: seq<Scored>, n: nat, p: Scored) returns (j: nat)
    requires n <= |sp| && multiset(sp)[p] > multiset(sp[..n])[p]
    ensures n <= j < |sp| && sp[j] == p
  {
    assert sp == sp[..n] + sp[n..];
    assert p in multiset(sp[n..]);
    assert p in sp[n..];
    var i :| 0 <= i < |sp[n..]| && sp[n..][i] == p;
    j := n + i;
  }

  lemma SortedTakeIsBest(sp: seq<Scored>, candidates: seq<Scored>, k: nat)
    requires multiset(sp) == multiset(candidates) && Sorted(sp, Descending)
    ensures Best(Take(k, sp), candidates, k)
  {
    var r := Take(k, sp);
    assert |multiset(sp)| == |multiset(candidates)|;
    TakeIsPart(k, sp);
    assert forall i :: 0 <= i < |r| ==> r[i] == sp[i] && Descending(sp[i]) == -r[i].1;
    forall p, q | multiset(candidates)[p] > multiset(r)[p] && q in r
      ensures p.1 <= q.1
    {
      assert sp[..|r|] == r;
      var j := LeftOut(sp, |r|, p);
      var i :| 0 <= i < |r| && r[i] == q;
      assert Descending(sp[i]) <= Descending(sp[j]);
    }
  }

  /** The hits are the best candidates, best first, with the scores of the fixed-order ranking, and distinct
      candidates give distinct hits. */
  lemma TopKExact(r: seq<Scored>, candidates: seq<Scored>, k: nat)
    requires IsTopK(r, candidates, k)
    ensures Scores(r) == Scores(Take(k, StableSort(candidates, Descending)))
    ensures multiset(r) <= multiset(candidates) && Best(r, candidates, k)
    ensures DistinctIndices(candidates) ==> DistinctIndices(r)
  {
    hide Best;
    var p: seq<Scored> :| multiset(p) == multiset(candidates) && r == Take(k, StableSort(p, Descending));
    var sp, sc := StableSort(p, Descending), StableSort(candidates, Descending);
    SortIsStableSort(p, Descending);
    SortKeysOrderFree(p, candidates, Descending);
    hide StableSort;
    KeysGiveScores(sp, sc, k);
    TakeIsPart(k, sp);
    SortedTakeIsBest(sp, candidates, k);
    if DistinctIndices(candidates) { DistinctUnderReorder(candidates, sp, k); }
  }

  /** The first `k` of the ranking are the best live entries, best first. */
  lemma RankingIsBest(n: nat, tombstones: seq<nat>, score: nat -> real, k: nat)
    ensures Best(Take(k, Ranking(n, tombstones, score)), Candidates(0, n, tombstones, score), k)
  {
    hide StableSort, Best, Candidates;
    var candidates := Candidates(0, n, tombstones, score);
    SortIsStableSort(candidates, Descending);
    SortedTakeIsBest(StableSort(candidates, Descending), candidates, k);
  }

  lemma TakeIsPart(k: nat, xs: seq<Scored>)
    ensures multiset(Take(k, xs)) <= multiset(xs)
  {
    assert xs == Take(k, xs) + xs[|Take(k, xs)|..];
  }

  lemma KeysGiveScores(xs: seq<Scored>, ys: seq<Scored>, k: nat)
    requires Keys(xs, Descending) == Keys(ys, Descending)
    ensures Scores(Take(k, xs)) == Scores(Take(k, ys))
  {
    assert |xs| == |ys|;
    forall i | 0 <= i < |xs|
      ensures xs[i].1 == ys[i].1
    {
      assert Keys(xs, Descending)[i] == Keys(ys, Descending)[i];
    }
  }

  lemma DistinctUnderReorder(xs: seq<Scored>, ys: seq<Scored>, k: nat)
    requires multiset(xs) == multiset(ys) && DistinctIndices(xs)
    ensures DistinctIndices(Take(k, ys))
  {
    forall i, j | 0 <= i < j < |Take(k, ys)|
      ensures ys[i].0 != ys[j].0
    {
      OccursOnce(xs, ys[i], ys[j]);
      assert ys == ys[..i] + [ys[i]] + ys[i + 1..j] + [ys[j]] + ys[j + 1..];
      assert multiset(ys) >= multiset{ys[i], ys[j]};
      assert ys[i] in multiset(xs) && ys[j] in multiset(xs);
    }
  }

  lemma {:induction false} OccursOnce(xs: seq<Scored>, a: Scored, b: Scored)
    requires DistinctIndices(xs)
    ensures multiset(xs)[a] <= 1
    ensures a in xs && b in xs && a != b ==> a.0 != b.0
  {
    if xs != [] {
      OccursOnce(xs[1..], a, b);
      assert xs == [xs[0]] + xs[1..];
      if xs[0] == a {
        assert a !in xs[1..];
        assert multiset(xs[1..])[a] == 0;
      }
    }
  }

  /** Lists without repeated indices and with the same members are rearrangements of each other. */
  lemma SameMembers(xs: seq<Scored>, ys: seq<Scored>)
    requires DistinctIndices(xs) && DistinctIndices(ys) && forall p: Scored :: p in xs <==> p in ys
    ensures multiset(xs) == multiset(ys)
  {
    forall p: Scored
      ensures multiset(xs)[p] == multiset(ys)[p]
    {
      OccursOnce(xs, p, p);
      OccursOnce(ys, p, p);
      assert (multiset(xs)[p] > 0 <==> p in xs) && (multiset(ys)[p] > 0 <==> p in ys);
    }
  }
}
