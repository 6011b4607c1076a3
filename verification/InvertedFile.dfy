/** The inverted-file index: primary lists, redundant shared lists, probing, and
    the offset/data form in which the primary lists are stored.  Similarities are
    arbitrary functions. */
module InvertedFile {
  import opened Sorting
  import opened VectorSearch

  datatype SharedEntry = SharedEntry(vectorIdx: nat, primaryList: nat)

  ghost predicate Distinct(s: seq<nat>) { forall i, j :: 0 <= i < j < |s| ==> s[i] != s[j] }

  lemma DistinctSnoc(s: seq<nat>, x: nat)
    requires Distinct(s) && x !in s
    ensures Distinct(s + [x])
  {
  }

  predicate Assigned(assignments: seq<nat>, clusters: nat) {
    forall i :: 0 <= i < |assignments| ==> assignments[i] < clusters
  }

  // ---- Primary lists ---------------------------------------------------------

  /** The indices below `n` assigned to cluster `c`, in increasing order. */
  function IndicesOf(assignments: seq<nat>, c: nat, n: nat): seq<nat>
    requires n <= |assignments|
  {
    if n == 0 then []
    else
      var before := IndicesOf(assignments, c, n - 1);
      if assignments[n - 1] == c then before + [n - 1] else before
  }

  lemma {:induction false} IndicesOfExact(assignments: seq<nat>, c: nat, n: nat)
    requires n <= |assignments|
    ensures forall v: nat :: v in IndicesOf(assignments, c, n) <==> v < n && assignments[v] == c
    ensures Distinct(IndicesOf(assignments, c, n))
  {
    if n > 0 { IndicesOfExact(assignments, c, n - 1); }
  }

  method BuildInvertedLists(assignments: seq<nat>, clusters: nat) returns (lists: seq<seq<nat>>)
    requires Assigned(assignments, clusters)
    ensures |lists| == clusters
    ensures forall c :: 0 <= c < clusters ==> lists[c] == IndicesOf(assignments, c, |assignments|)
  {
    lists := seq(clusters, _ => []);
    for i := 0 to |assignments|
      invariant |lists| == clusters
      invariant forall c :: 0 <= c < clusters ==> lists[c] == IndicesOf(assignments, c, i)
    {
      var c := assignments[i];
      lists := lists[c := lists[c] + [i]];
    }
  }

  /** Every index sits exactly once, in the list of its own cluster. */
  ghost predicate Partitions(lists: seq<seq<nat>>, assignments: seq<nat>) {
    Assigned(assignments, |lists|) &&
    forall c :: 0 <= c < |lists| ==>
      Distinct(lists[c]) && forall v: nat :: v in lists[c] <==> v < |assignments| && assignments[v] == c
  }

  lemma ListsPartition(lists: seq<seq<nat>>, assignments: seq<nat>)
    requires Assigned(assignments, |lists|)
    requires forall c :: 0 <= c < |lists| ==> lists[c] == IndicesOf(assignments, c, |assignments|)
    ensures Partitions(lists, assignments)
  {
    forall c | 0 <= c < |lists| { IndicesOfExact(assignments, c, |assignments|); }
  }

  // ---- Shared lists ----------------------------------------------------------

  function Indices(xs: seq<Scored>): (ids: seq<nat>)
    ensures |ids| == |xs| && forall i :: 0 <= i < |xs| ==> ids[i] == xs[i].0
  {
    seq(|xs|, i requires 0 <= i < |xs| => xs[i].0)
  }

  /** The clusters by descending similarity. */
  function ClusterOrder(clusters: nat, similarity: nat -> real): seq<nat> {
    Indices(Ranking(clusters, [], similarity))
  }

  lemma ClusterOrderPermutes(clusters: nat, similarity: nat -> real)
    ensures Distinct(ClusterOrder(clusters, similarity))
    ensures forall c: nat :: c in ClusterOrder(clusters, similarity) <==> c < clusters
    ensures |ClusterOrder(clusters, similarity)| == clusters
  {
    var cands, sorted := Candidates(0, clusters, [], similarity), Ranking(clusters, [], similarity);
    CandidatesExact(0, clusters, [], similarity);
    SortIsStableSort(cands, Descending);
    assert multiset(sorted) == multiset(cands);
    hide Ranking, Candidates;
    DistinctUnderReorder(cands, sorted, |sorted|);
    assert Take(|sorted|, sorted) == sorted;
    var order := ClusterOrder(clusters, similarity);
    forall c: nat
      ensures c in order <==> c < clusters
    {
      OrderMember(clusters, cands, sorted, similarity, c);
    }
    SeqSetSize(order, Range(clusters));
  }

  /** The most similar cluster comes first. */
  lemma ClusterOrderDescends(clusters: nat, similarity: nat -> real)
    ensures Descends(ClusterOrder(clusters, similarity), similarity)
  {
    var cands, sorted := Candidates(0, clusters, [], similarity), Ranking(clusters, [], similarity);
    CandidatesExact(0, clusters, [], similarity);
    SortIsStableSort(cands, Descending);
    hide Ranking, Candidates;
    forall i, j | 0 <= i < j < |sorted|
      ensures similarity(sorted[i].0) >= similarity(sorted[j].0)
    {
      assert sorted[i] in multiset(sorted) && sorted[j] in multiset(sorted);
      assert sorted[i] in cands && sorted[j] in cands;
      assert Descending(sorted[i]) <= Descending(sorted[j]);
    }
  }

  ghost predicate Descends(order: seq<nat>, similarity: nat -> real) {
    forall i, j :: 0 <= i < j < |order| ==> similarity(order[i]) >= similarity(order[j])
  }

  lemma OrderMember(clusters: nat, cands: seq<Scored>, sorted: seq<Scored>, similarity: nat -> real, c: nat)
    requires ListsLive(cands, 0, clusters, [], similarity) && multiset(sorted) == multiset(cands)
    ensures c in Indices(sorted) <==> c < clusters
  {
    if c < clusters {
      assert Live([], c) && Lists(cands, c);
      var m :| 0 <= m < |cands| && cands[m].0 == c;
      assert cands[m] in multiset(sorted);
      var q :| 0 <= q < |sorted| && sorted[q] == cands[m];
      assert Indices(sorted)[q] == c;
    }
    if c in Indices(sorted) {
      var q :| 0 <= q < |sorted| && sorted[q].0 == c;
      assert sorted[q] in multiset(cands);
    }
  }

  /** The numbers below `n`. */
  function Range(n: nat): (r: set<nat>)
    ensures |r| == n && forall v: nat :: v in r <==> v < n
  {
    if n == 0 then {} else Range(n - 1) + {n - 1}
  }

  lemma {:induction false} SeqSetSize(s: seq<nat>, elems: set<nat>)
    requires Distinct(s) && forall v :: v in s <==> v in elems
    ensures |elems| == |s|
  {
    if s == [] {
      assert elems == {};
    } else {
      var last := s[|s| - 1];
      assert last !in s[..|s| - 1];
      assert forall v :: v in s <==> v in s[..|s| - 1] || v == last;
      SeqSetSize(s[..|s| - 1], elems - {last});
    }
  }

  /** The first `need` clusters of `order` other than the primary one. */
  function Extras(order: seq<nat>, primary: nat, need: nat): seq<nat> {
    if need == 0 || order == [] then []
    else if order[0] == primary then Extras(order[1..], primary, need)
    else [order[0]] + Extras(order[1..], primary, need - 1)
  }

  /** The lists that receive vector `i`: its primary one, then its best others. */
  function TargetLists(primary: nat, clusters: nat, rf: nat, similarity: nat -> real): seq<nat>
    requires rf > 0
  {
    [primary] + Extras(ClusterOrder(clusters, similarity), primary, rf - 1)
  }

  lemma {:induction false} ExtrasExact(order: seq<nat>, primary: nat, need: nat)
    requires Distinct(order) && need <= |order| && (primary in order ==> need < |order|)
    ensures |Extras(order, primary, need)| == need
    ensures Distinct(Extras(order, primary, need)) && primary !in Extras(order, primary, need)
    ensures forall c :: c in Extras(order, primary, need) ==> c in order
  {
    if need > 0 {
      var rest := order[1..];
      assert order[0] !in rest;
      assert forall c :: c in order <==> c == order[0] || c in rest;
      ExtrasExact(rest, primary, if order[0] == primary then need else need - 1);
    }
  }

  /** What is left out is no more similar than what is taken. */
  lemma {:induction false} ExtrasBest(order: seq<nat>, primary: nat, need: nat, similarity: nat -> real, c: nat, d: nat)
    requires Descends(order, similarity) && c in Extras(order, primary, need)
    requires d in order && d != primary && d !in Extras(order, primary, need)
    ensures similarity(c) >= similarity(d)
  {
    var rest := order[1..];
    assert order == [order[0]] + rest;
    if order[0] == primary {
      ExtrasBest(rest, primary, need, similarity, c, d);
    } else if c != order[0] {
      ExtrasBest(rest, primary, need - 1, similarity, c, d);
    } else {
      var j :| 0 <= j < |order| && order[j] == d;
    }
  }

  /** Other than the primary one, these are the clusters most similar to the vector. */
  ghost predicate BestOthers(targets: set<nat>, primary: nat, clusters: nat, similarity: nat -> real) {
    forall c, d: nat :: c in targets && c != primary && d < clusters && d !in targets ==> similarity(c) >= similarity(d)
  }

  lemma TargetListsBest(primary: nat, clusters: nat, rf: nat, similarity: nat -> real)
    requires rf > 0
    ensures BestOthers((set c | c in TargetLists(primary, clusters, rf, similarity)), primary, clusters, similarity)
  {
    var order := ClusterOrder(clusters, similarity);
    var t := TargetLists(primary, clusters, rf, similarity);
    ClusterOrderPermutes(clusters, similarity);
    ClusterOrderDescends(clusters, similarity);
    hide ClusterOrder;
    forall c, d: nat | c in t && c != primary && d < clusters && d !in t
      ensures similarity(c) >= similarity(d)
    {
      ExtrasBest(order, primary, rf - 1, similarity, c, d);
    }
  }

  /** Exactly `rf` different lists receive each vector, its primary one among them. */
  lemma TargetListsExact(primary: nat, clusters: nat, rf: nat, similarity: nat -> real)
    requires primary < clusters && 0 < rf <= clusters
    ensures var t := TargetLists(primary, clusters, rf, similarity);
      |t| == rf && Distinct(t) && primary in t && forall c :: c in t ==> c < clusters
  {
    var order := ClusterOrder(clusters, similarity);
    ClusterOrderPermutes(clusters, similarity);
    hide ClusterOrder;
    ExtrasExact(order, primary, rf - 1);
  }

  /** Shared list `c` after the first `n` vectors. */
  function SharedList(assignments: seq<nat>, clusters: nat, rf: nat, air: nat -> (nat -> real), c: nat,
                      n: nat): seq<SharedEntry>
    requires n <= |assignments| && rf > 0
  {
    if n == 0 then []
    else
      var before := SharedList(assignments, clusters, rf, air, c, n - 1);
      if c in TargetLists(assignments[n - 1], clusters, rf, air(n - 1))
      then before + [SharedEntry(n - 1, assignments[n - 1])] else before
  }

  /** One vector's entry goes to each of its target lists. */
  method ShareVector(seil: seq<seq<SharedEntry>>, entry: SharedEntry, clusters: nat, rf: nat, similarity: nat -> real)
    returns (r: seq<seq<SharedEntry>>)
    requires |seil| == clusters && entry.primaryList < clusters && 0 < rf <= clusters
    ensures Shared(seil, r, entry, TargetLists(entry.primaryList, clusters, rf, similarity))
  {
    hide ClusterOrder, Extras, TargetLists, Shared, Distinct;
    var primary := entry.primaryList;
    var order := ClusterOrder(clusters, similarity);
    ghost var all := TargetLists(primary, clusters, rf, similarity);
    ClusterOrderPermutes(clusters, similarity);
    TargetListsExact(primary, clusters, rf, similarity);
    TargetListsStart(primary, clusters, rf, similarity);
    SharedOne(seil, entry, primary);
    r := seil[primary := seil[primary] + [entry]];
    var taken, m := 1, 0;
    ghost var targets := [primary];
    while m < |order| && taken < rf
      invariant m <= |order| && 1 <= taken <= rf && |r| == clusters
      invariant all == targets + Extras(order[m..], primary, rf - taken)
      invariant Shared(seil, r, entry, targets)
    {
      var c := order[m];
      assert c in order;
      NextTarget(all, targets, order, m, primary, rf - taken);
      if c != primary {
        SharedExtends(seil, r, entry, targets, c);
        r := r[c := r[c] + [entry]];
        taken, targets := taken + 1, targets + [c];
      }
      m := m + 1;
    }
    ExtrasUnfold(order, m, primary, rf - taken);
    assert all == targets;
  }

  lemma TargetListsStart(primary: nat, clusters: nat, rf: nat, similarity: nat -> real)
    requires rf > 0
    ensures TargetLists(primary, clusters, rf, similarity) ==
            [primary] + Extras(ClusterOrder(clusters, similarity)[0..], primary, rf - 1)
  {
    hide ClusterOrder, Extras;
    assert ClusterOrder(clusters, similarity)[0..] == ClusterOrder(clusters, similarity);
  }

  lemma SharedOne(seil: seq<seq<SharedEntry>>, entry: SharedEntry, c: nat)
    requires c < |seil|
    ensures Shared(seil, seil[c := seil[c] + [entry]], entry, [c])
  {
  }

  lemma NextTarget(all: seq<nat>, targets: seq<nat>, order: seq<nat>, m: nat, primary: nat, need: nat)
    requires m < |order| && need > 0 && Distinct(all) && all == targets + Extras(order[m..], primary, need)
    ensures order[m] == primary ==> all == targets + Extras(order[m + 1..], primary, need)
    ensures order[m] != primary ==>
      order[m] !in targets && all == targets + [order[m]] + Extras(order[m + 1..], primary, need - 1)
  {
    ExtrasUnfold(order, m, primary, need);
    hide Extras;
    if order[m] != primary {
      assert all[|targets|] == order[m];
      assert forall i :: 0 <= i < |targets| ==> all[i] == targets[i];
    }
  }

  /** `r` is `seil` with `entry` appended to each list in `targets`. */
  ghost predicate Shared(seil: seq<seq<SharedEntry>>, r: seq<seq<SharedEntry>>, entry: SharedEntry, targets: seq<nat>) {
    |r| == |seil| && forall c :: 0 <= c < |seil| ==> r[c] == if c in targets then seil[c] + [entry] else seil[c]
  }

  lemma SharedExtends(seil: seq<seq<SharedEntry>>, r: seq<seq<SharedEntry>>, entry: SharedEntry, targets: seq<nat>,
                      c: nat)
    requires Shared(seil, r, entry, targets) && c < |seil| && c !in targets
    ensures Shared(seil, r[c := r[c] + [entry]], entry, targets + [c])
  {
  }

  lemma ExtrasUnfold(order: seq<nat>, m: nat, primary: nat, need: nat)
    requires m <= |order|
    ensures m == |order| || need == 0 ==> Extras(order[m..], primary, need) == []
    ensures m < |order| && need > 0 && order[m] == primary ==>
      Extras(order[m..], primary, need) == Extras(order[m + 1..], primary, need)
    ensures m < |order| && need > 0 && order[m] != primary ==>
      Extras(order[m..], primary, need) == [order[m]] + Extras(order[m + 1..], primary, need - 1)
  {
    if m < |order| { assert order[m..][1..] == order[m + 1..]; }
  }

  /** With redundancy above one, each vector goes to its target lists; otherwise
      the shared lists copy the primary ones. */
  lemma NothingShared(assignments: seq<nat>, clusters: nat, rf: nat, air: nat -> (nat -> real), c: nat)
    requires rf > 0
    ensures SharedList(assignments, clusters, rf, air, c, 0) == []
  {
  }

  lemma SharedListStep(assignments: seq<nat>, clusters: nat, rf: nat, air: nat -> (nat -> real), c: nat, n: nat)
    requires n < |assignments| && rf > 0
    ensures SharedList(assignments, clusters, rf, air, c, n + 1) ==
            if c in TargetLists(assignments[n], clusters, rf, air(n))
            then SharedList(assignments, clusters, rf, air, c, n) + [SharedEntry(n, assignments[n])]
            else SharedList(assignments, clusters, rf, air, c, n)
  {
    hide TargetLists;
  }

  method BuildSharedLists(assignments: seq<nat>, lists: seq<seq<nat>>, rf: nat, air: nat -> (nat -> real))
    returns (seil: seq<seq<SharedEntry>>)
    requires Assigned(assignments, |lists|) && 0 < rf <= |lists|
    requires forall c :: 0 <= c < |lists| ==> lists[c] == IndicesOf(assignments, c, |assignments|)
    ensures |seil| == |lists|
    ensures forall c :: 0 <= c < |lists| ==> seil[c] == SharedList(assignments, |lists|, rf, air, c, |assignments|)
  {
    hide IndicesOf, SharedList, TargetLists, Mirror;
    var clusters := |lists|;
    if rf > 1 {
      seil := seq(clusters, _ => []);
      forall c | 0 <= c < clusters { NothingShared(assignments, clusters, rf, air, c); }
      for i := 0 to |assignments|
        invariant |seil| == clusters
        invariant forall c :: 0 <= c < clusters ==> seil[c] == SharedList(assignments, clusters, rf, air, c, i)
      {
        ghost var before := seil;
        seil := ShareVector(seil, SharedEntry(i, assignments[i]), clusters, rf, air(i));
        forall c | 0 <= c < clusters
          ensures seil[c] == SharedList(assignments, clusters, rf, air, c, i + 1)
        {
          SharedListStep(assignments, clusters, rf, air, c, i);
        }
      }
    } else {
      seil := seq(clusters, c requires 0 <= c < clusters => Mirror(lists[c], c));
      forall c | 0 <= c < clusters { MirrorIsShared(assignments, clusters, air, c, |assignments|); }
    }
  }

  function Mirror(list: seq<nat>, c: nat): seq<SharedEntry> {
    seq(|list|, m requires 0 <= m < |list| => SharedEntry(list[m], c))
  }

  lemma {:induction false} MirrorIsShared(assignments: seq<nat>, clusters: nat, air: nat -> (nat -> real), c: nat,
                                          n: nat)
    requires n <= |assignments|
    ensures Mirror(IndicesOf(assignments, c, n), c) == SharedList(assignments, clusters, 1, air, c, n)
  {
    hide TargetLists;
    if n > 0 {
      MirrorIsShared(assignments, clusters, air, c, n - 1);
      OneTarget(assignments[n - 1], clusters, air(n - 1));
    }
  }

  lemma OneTarget(primary: nat, clusters: nat, similarity: nat -> real)
    ensures TargetLists(primary, clusters, 1, similarity) == [primary]
  {
    hide ClusterOrder;
  }

  function VectorIds(entries: seq<SharedEntry>): (ids: seq<nat>)
    ensures |ids| == |entries| && forall i :: 0 <= i < |entries| ==> ids[i] == entries[i].vectorIdx
  {
    seq(|entries|, i requires 0 <= i < |entries| => entries[i].vectorIdx)
  }

  /** A shared list holds a vector at most once, and holds it exactly when the list is one of its targets. */
  lemma {:induction false} SharedListExact(assignments: seq<nat>, clusters: nat, rf: nat, air: nat -> (nat -> real),
                                           c: nat, n: nat)
    requires n <= |assignments| && rf > 0
    ensures var ids := VectorIds(SharedList(assignments, clusters, rf, air, c, n));
      Distinct(ids) && (forall v: nat :: v in ids ==> v < n) &&
      forall v: nat :: v < n ==> (v in ids <==> c in TargetLists(assignments[v], clusters, rf, air(v)))
  {
    if n > 0 {
      SharedListExact(assignments, clusters, rf, air, c, n - 1);
      var before := SharedList(assignments, clusters, rf, air, c, n - 1);
      var after := SharedList(assignments, clusters, rf, air, c, n);
      hide TargetLists;
      hide SharedList;
      if c in TargetLists(assignments[n - 1], clusters, rf, air(n - 1)) {
        assert after == before + [SharedEntry(n - 1, assignments[n - 1])];
        assert VectorIds(after) == VectorIds(before) + [n - 1];
        DistinctSnoc(VectorIds(before), n - 1);
      } else {
        assert after == before;
      }
    }
  }

  /** The set of shared lists holding vector `v` has exactly `rf` members, the primary one included and the
      others the best ones. */
  lemma SharedListsExact(assignments: seq<nat>, seil: seq<seq<SharedEntry>>, rf: nat, air: nat -> (nat -> real), v: nat)
    requires Assigned(assignments, |seil|) && 0 < rf <= |seil| && v < |assignments|
    requires forall c :: 0 <= c < |seil| ==> seil[c] == SharedList(assignments, |seil|, rf, air, c, |assignments|)
    ensures assignments[v] in HoldingLists(seil, v) && |HoldingLists(seil, v)| == rf
    ensures BestOthers(HoldingLists(seil, v), assignments[v], |seil|, air(v))
  {
    TargetListsBest(assignments[v], |seil|, rf, air(v));
    var t := TargetLists(assignments[v], |seil|, rf, air(v));
    TargetListsExact(assignments[v], |seil|, rf, air(v));
    forall c | 0 <= c < |seil| { SharedListExact(assignments, |seil|, rf, air, c, |assignments|); }
    hide TargetLists, SharedList;
    assert forall c :: c in t <==> c in HoldingLists(seil, v);
    assert (set c | c in t) == HoldingLists(seil, v);
    SeqSetSize(t, HoldingLists(seil, v));
  }

  /** Every entry names the primary list of its vector. */
  ghost predicate NamesPrimaries(list: seq<SharedEntry>, assignments: seq<nat>) {
    forall i :: 0 <= i < |list| ==>
      list[i].vectorIdx < |assignments| && list[i].primaryList == assignments[list[i].vectorIdx]
  }

  lemma {:induction false} SharedListNames(assignments: seq<nat>, clusters: nat, rf: nat, air: nat -> (nat -> real),
                                           c: nat, n: nat)
    requires n <= |assignments| && rf > 0
    ensures NamesPrimaries(SharedList(assignments, clusters, rf, air, c, n), assignments)
  {
    hide TargetLists;
    if n > 0 {
      SharedListNames(assignments, clusters, rf, air, c, n - 1);
    }
  }

  function HoldingLists(seil: seq<seq<SharedEntry>>, v: nat): set<nat> {
    set c: nat | c < |seil| && v in VectorIds(seil[c])
  }

  // ---- Training, after k-means -----------------------------------------------

  datatype Index = Index(clusters: nat, redundancy: nat, lists: seq<seq<nat>>, seil: seq<seq<SharedEntry>>)

  function Clamp(x: nat, lo: nat, hi: nat): nat { if x < lo then lo else if x > hi then hi else x }

  /** What training promises for `assignments`: primary lists that partition the vectors and
      shared lists that hold every vector in exactly `redundancy` of them. */
  ghost predicate Trained(index: Index, assignments: seq<nat>) {
    && |index.lists| == |index.seil| == index.clusters && 0 < index.redundancy <= index.clusters
    && Partitions(index.lists, assignments)
    && (forall c :: 0 <= c < index.clusters ==> Distinct(VectorIds(index.seil[c])))
    && (forall c, v :: 0 <= c < index.clusters && v in VectorIds(index.seil[c]) ==> v < |assignments|)
    && forall v :: 0 <= v < |assignments| ==>
         assignments[v] in HoldingLists(index.seil, v) && |HoldingLists(index.seil, v)| == index.redundancy
  }

  /** Builds both kinds of lists from an assignment of the vectors to clusters. */
  method BuildIndex(assignments: seq<nat>, clusters: nat, rf: nat, air: nat -> (nat -> real)) returns (index: Index)
    requires Assigned(assignments, clusters) && 0 < rf <= clusters
    ensures Trained(index, assignments) && index.clusters == clusters && index.redundancy == rf
    ensures forall v :: 0 <= v < |assignments| ==>
      BestOthers(HoldingLists(index.seil, v), assignments[v], clusters, air(v))
    ensures forall c :: 0 <= c < clusters ==> NamesPrimaries(index.seil[c], assignments)
  {
    var lists := BuildInvertedLists(assignments, clusters);
    var seil := BuildSharedLists(assignments, lists, rf, air);
    ListsPartition(lists, assignments);
    hide IndicesOf, SharedList, Partitions, HoldingLists, BestOthers, NamesPrimaries;
    forall c | 0 <= c < clusters
      ensures Distinct(VectorIds(seil[c])) && forall v :: v in VectorIds(seil[c]) ==> v < |assignments|
      ensures NamesPrimaries(seil[c], assignments)
    {
      SharedListNames(assignments, clusters, rf, air, c, |assignments|);
      SharedListExact(assignments, clusters, rf, air, c, |assignments|);
    }
    forall v | 0 <= v < |assignments|
      ensures assignments[v] in HoldingLists(seil, v) && |HoldingLists(seil, v)| == rf
      ensures BestOthers(HoldingLists(seil, v), assignments[v], clusters, air(v))
    {
      SharedListsExact(assignments, seil, rf, air, v);
    }
    index := Index(clusters, rf, lists, seil);
  }

  // ---- Stored form -------------------------------------------------------------

  function Offset(lists: seq<seq<nat>>, c: nat): nat
    requires c <= |lists|
  {
    if c == 0 then 0 else Offset(lists, c - 1) + |lists[c - 1]|
  }

  function Flattened(lists: seq<seq<nat>>, c: nat): (r: seq<nat>)
    requires c <= |lists|
    ensures |r| == Offset(lists, c)
  {
    if c == 0 then [] else Flattened(lists, c - 1) + lists[c - 1]
  }

  lemma FlattenedStep(lists: seq<seq<nat>>, c: nat)
    requires c < |lists|
    ensures Offset(lists, c + 1) == Offset(lists, c) + |lists[c]|
    ensures Flattened(lists, c + 1) == Flattened(lists, c) + lists[c]
  {
  }

  lemma NothingFlattened(lists: seq<seq<nat>>)
    ensures Offset(lists, 0) == 0 && Flattened(lists, 0) == []
  {
  }

  method PushAll(data: seq<nat>, list: seq<nat>) returns (r: seq<nat>)
    ensures r == data + list
  {
    r := data;
    for m := 0 to |list|
      invariant r == data + list[..m]
    {
      r := r + [list[m]];
    }
    assert list[..|list|] == list;
  }

  method ToStored(lists: seq<seq<nat>>) returns (offsets: seq<nat>, data: seq<nat>)
    ensures |offsets| == |lists| + 1 && forall c :: 0 <= c <= |lists| ==> offsets[c] == Offset(lists, c)
    ensures data == Flattened(lists, |lists|)
  {
    hide Flattened, Offset;
    offsets, data := [], [];
    NothingFlattened(lists);
    var offset := 0;
    for c := 0 to |lists|
      invariant |offsets| == c && forall b :: 0 <= b < c ==> offsets[b] == Offset(lists, b)
      invariant offset == Offset(lists, c) && data == Flattened(lists, c)
    {
      FlattenedStep(lists, c);
      offsets := offsets + [offset];
      data := PushAll(data, lists[c]);
      offset := offset + |lists[c]|;
    }
    offsets := offsets + [offset];
  }

  /** Two consecutive offsets delimit a slice of the data. */
  predicate Delimits(offsets: seq<nat>, data: seq<nat>, c: nat) {
    c + 1 < |offsets| && offsets[c] <= offsets[c + 1] <= |data|
  }

  function Slice(offsets: seq<nat>, data: seq<nat>, c: nat): seq<nat>
    requires Delimits(offsets, data, c)
  {
    data[offsets[c]..offsets[c + 1]]
  }

  /** Consecutive offsets cut the data back into lists; the shared lists are rebuilt as copies. */
  method FromStored(clusters: nat, offsets: seq<nat>, data: seq<nat>) returns (index: Index)
    requires forall c: nat :: c < clusters ==> Delimits(offsets, data, c)
    ensures |index.lists| == |index.seil| == index.clusters == clusters && index.redundancy == 1
    ensures forall c: nat :: c < clusters ==> index.lists[c] == Slice(offsets, data, c)
    ensures forall c: nat :: c < clusters ==> index.seil[c] == Mirror(index.lists[c], c)
  {
    var lists := [];
    for c := 0 to clusters
      invariant |lists| == c && forall b: nat :: b < c ==> lists[b] == Slice(offsets, data, b)
    {
      assert Delimits(offsets, data, c);
      lists := lists + [data[offsets[c]..offsets[c + 1]]];
    }
    index := Index(clusters, 1, lists, seq(clusters, c requires 0 <= c < clusters => Mirror(lists[c], c)));
  }

  lemma {:induction false} FlattenedSlice(lists: seq<seq<nat>>, c: nat, n: nat)
    requires c < n <= |lists|
    ensures Offset(lists, c) <= Offset(lists, c + 1) <= |Flattened(lists, n)|
    ensures Flattened(lists, n)[Offset(lists, c)..Offset(lists, c + 1)] == lists[c]
    decreases n
  {
    if c < n - 1 { FlattenedSlice(lists, c, n - 1); }
  }

  /** Storing and reading back restores the primary lists. */
  method StoreAndReload(lists: seq<seq<nat>>) returns (index: Index)
    ensures index.lists == lists
  {
    hide Flattened, Offset;
    var offsets, data := ToStored(lists);
    forall c: nat | c < |lists|
      ensures Delimits(offsets, data, c) && Slice(offsets, data, c) == lists[c]
    {
      FlattenedSlice(lists, c, |lists|);
    }
    index := FromStored(|lists|, offsets, data);
  }
}
