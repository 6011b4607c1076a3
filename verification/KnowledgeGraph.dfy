/** The knowledge graph as a value: entities and relations in insertion order,
    undirected adjacency, walks, and the distance that traversal measures. */
module KnowledgeGraph {
  import opened Wrappers

  datatype Entity = Entity(id: nat, name: string, kind: string, embeddingIdx: int)

  datatype Relation = Relation(src: nat, tgt: nat, kind: string, weight: real)

  datatype Graph = Graph(entities: seq<Entity>, relations: seq<Relation>)

  /** The first entity carrying `id`, as the linear lookup finds it. */
  function GetEntity(entities: seq<Entity>, id: nat): (r: Option<Entity>)
    ensures r.Some? ==> r.value in entities && r.value.id == id
    ensures r.None? ==> forall e :: e in entities ==> e.id != id
  {
    if entities == [] then None
    else if entities[0].id == id then Some(entities[0])
    else GetEntity(entities[1..], id)
  }

  function Ids(g: Graph): set<nat> { set e | e in g.entities :: e.id }

  predicate Stored(g: Graph, v: nat) { v in Ids(g) }

  predicate Joins(r: Relation, u: nat, v: nat) {
    (r.src == u && r.tgt == v) || (r.tgt == u && r.src == v)
  }

  ghost predicate Adjacent(g: Graph, u: nat, v: nat) {
    exists r :: r in g.relations && Joins(r, u, v)
  }

  /** A walk from `s` to `v`; every node after the first has a stored entity. */
  ghost predicate Walk(g: Graph, s: nat, v: nat, p: seq<nat>) {
    |p| > 0 && p[0] == s && p[|p| - 1] == v &&
    forall i :: 0 < i < |p| ==> Stored(g, p[i]) && Adjacent(g, p[i - 1], p[i])
  }

  /** Every walk from `s` to `v` takes at least `d` steps, and one takes exactly `d`. */
  ghost predicate IsDistance(g: Graph, s: nat, v: nat, d: nat) {
    (exists p :: Walk(g, s, v, p) && |p| == d + 1) &&
    (forall p :: Walk(g, s, v, p) ==> |p| >= d + 1)
  }

  /** `v` can be reached from `s` in at most `d` steps. */
  ghost predicate Within(g: Graph, s: nat, v: nat, d: nat) {
    exists p :: Walk(g, s, v, p) && |p| <= d + 1
  }

  /** The far ends of the relations at `u`, in relation order. */
  function Neighbours(relations: seq<Relation>, u: nat): (ns: seq<nat>)
    ensures forall v :: v in ns <==> exists r :: r in relations && Joins(r, u, v)
  {
    if relations == [] then []
    else
      var r := relations[0];
      var rest := Neighbours(relations[1..], u);
      var ns := if r.src == u then [r.tgt] + rest else if r.tgt == u then [r.src] + rest else rest;
      assert forall v :: v in ns <==> Joins(r, u, v) || v in rest;
      assert forall x :: x in relations <==> x == r || x in relations[1..];
      ns
  }

  lemma WalkExtended(g: Graph, s: nat, u: nat, p: seq<nat>, v: nat)
    requires Walk(g, s, u, p) && Stored(g, v) && Adjacent(g, u, v)
    ensures Walk(g, s, v, p + [v])
  {
  }

  lemma WalkShortened(g: Graph, s: nat, v: nat, p: seq<nat>)
    requires Walk(g, s, v, p) && |p| > 1
    ensures Walk(g, s, p[|p| - 2], p[..|p| - 1])
    ensures Stored(g, v) && Adjacent(g, p[|p| - 2], v)
  {
    assert forall i :: 0 < i < |p| - 1 ==> p[..|p| - 1][i] == p[i];
  }
}

/** Bounded breadth-first search: the queue loop finds exactly the entities
    within the depth bound and labels each with its distance. */
module Traversal {
  import opened Wrappers
  import opened KnowledgeGraph

  type Hit = (Entity, nat)

  /** Some labelled neighbour of `v` is one step closer. */
  ghost predicate HasParent(g: Graph, lab: map<nat, nat>, v: nat)
    requires v in lab
  {
    exists u :: u in lab && lab[u] + 1 == lab[v] && Adjacent(g, u, v)
  }

  /** Depths handed out so far: each positive one has a predecessor one step closer. */
  ghost predicate LabelsSound(g: Graph, seed: nat, max: nat, lab: map<nat, nat>) {
    seed in lab && lab[seed] == 0 &&
    forall v :: v in lab && v != seed ==>
      Stored(g, v) && 0 < lab[v] <= max && HasParent(g, lab, v)
  }

  /** Nodes already expanded have all their stored neighbours labelled. */
  ghost predicate Expanded(g: Graph, max: nat, lab: map<nat, nat>, done: set<nat>) {
    done <= lab.Keys &&
    forall v, w :: v in done && lab[v] < max && Adjacent(g, v, w) && Stored(g, w) ==> w in lab && lab[w] <= lab[v] + 1
  }

  predicate Listed(results: seq<Hit>, v: nat) {
    exists i :: 0 <= i < |results| && results[i].0.id == v
  }

  predicate Queued(queue: seq<(nat, nat)>, v: nat) {
    exists i :: 0 <= i < |queue| && queue[i].0 == v
  }

  ghost predicate HitsMatch(g: Graph, seed: nat, results: seq<Hit>, lab: map<nat, nat>) {
    && (forall i :: 0 <= i < |results| ==>
          var (e, d) := results[i];
          GetEntity(g.entities, e.id) == Some(e) && e.id != seed && e.id in lab && lab[e.id] == d)
    && (forall v :: v in lab && v != seed ==> Listed(results, v))
    && (forall i, j :: 0 <= i < j < |results| ==> results[i].0.id != results[j].0.id && results[i].1 <= results[j].1)
  }

  /** The queue holds labelled nodes in depth order, all at level `d` or just above. */
  ghost predicate QueueOrdered(queue: seq<(nat, nat)>, lab: map<nat, nat>, d: nat) {
    && (forall i :: 0 <= i < |queue| ==> queue[i].0 in lab && lab[queue[i].0] == queue[i].1 && d <= queue[i].1)
    && (forall i, j :: 0 <= i < j < |queue| ==> queue[i].1 <= queue[j].1)
  }

  ghost predicate Bounded(lab: map<nat, nat>, d: nat) { forall v :: v in lab ==> lab[v] <= d + 1 }

  ghost predicate Covered(queue: seq<(nat, nat)>, lab: map<nat, nat>, done: set<nat>) {
    forall v :: v in lab ==> v in done || Queued(queue, v)
  }

  ghost predicate VisitedMatches(g: Graph, visited: set<nat>, lab: map<nat, nat>) {
    lab.Keys <= visited && forall v :: v in visited && v !in lab ==> !Stored(g, v)
  }

  ghost predicate SearchInv(g: Graph, seed: nat, max: nat, visited: set<nat>, queue: seq<(nat, nat)>,
                            results: seq<Hit>, lab: map<nat, nat>, d: nat)
  {
    LabelsSound(g, seed, max, lab) && HitsMatch(g, seed, results, lab) &&
    QueueOrdered(queue, lab, d) && Bounded(lab, d) && VisitedMatches(g, visited, lab)
  }

  // Labelling a new neighbour `v` of the node `cur` at depth `d`, clause by clause.

  lemma DiscoverLabels(g: Graph, seed: nat, max: nat, lab: map<nat, nat>, d: nat, cur: nat, n: nat)
    requires LabelsSound(g, seed, max, lab)
    requires cur in lab && lab[cur] == d < max && Adjacent(g, cur, n) && Stored(g, n) && n !in lab
    ensures LabelsSound(g, seed, max, lab[n := d + 1])
  {
    hide Adjacent, Stored;
    var lab' := lab[n := d + 1];
    forall v | v in lab' && v != seed
      ensures HasParent(g, lab', v)
    {
      if v == n {
        assert lab'[cur] == lab'[v] - 1;
      } else {
        assert HasParent(g, lab, v);
        var u :| u in lab && lab[u] + 1 == lab[v] && Adjacent(g, u, v);
        assert lab'[u] == lab'[v] - 1;
      }
    }
  }

  lemma DiscoverHits(g: Graph, seed: nat, results: seq<Hit>, lab: map<nat, nat>, d: nat, e: Entity)
    requires HitsMatch(g, seed, results, lab) && Bounded(lab, d)
    requires seed in lab && e.id !in lab && GetEntity(g.entities, e.id) == Some(e)
    ensures HitsMatch(g, seed, results + [(e, d + 1)], lab[e.id := d + 1])
  {
    hide GetEntity;
    var lab', results' := lab[e.id := d + 1], results + [(e, d + 1)];
    forall v | v in lab' && v != seed
      ensures Listed(results', v)
    {
      if v == e.id {
        assert results'[|results|].0.id == v;
      } else {
        assert Listed(results, v);
        var i :| 0 <= i < |results| && results[i].0.id == v;
        assert results'[i].0.id == v;
      }
    }
  }

  lemma DiscoverQueue(queue: seq<(nat, nat)>, lab: map<nat, nat>, d: nat, n: nat)
    requires QueueOrdered(queue, lab, d) && Bounded(lab, d) && n !in lab
    ensures QueueOrdered(queue + [(n, d + 1)], lab[n := d + 1], d) && Bounded(lab[n := d + 1], d)
  {
  }

  lemma DiscoverKeepsInv(g: Graph, seed: nat, max: nat, visited: set<nat>, queue: seq<(nat, nat)>,
                         results: seq<Hit>, lab: map<nat, nat>, d: nat, cur: nat, e: Entity)
    requires SearchInv(g, seed, max, visited, queue, results, lab, d)
    requires cur in lab && lab[cur] == d < max && Adjacent(g, cur, e.id)
    requires e.id !in visited && GetEntity(g.entities, e.id) == Some(e)
    ensures SearchInv(g, seed, max, visited + {e.id}, queue + [(e.id, d + 1)], results + [(e, d + 1)],
                      lab[e.id := d + 1], d)
  {
    assert Stored(g, e.id);
    assert seed in lab && lab.Keys <= visited;
    hide LabelsSound, HitsMatch, QueueOrdered, Bounded, Adjacent, Stored, GetEntity;
    DiscoverLabels(g, seed, max, lab, d, cur, e.id);
    DiscoverHits(g, seed, results, lab, d, e);
    DiscoverQueue(queue, lab, d, e.id);
  }

  /** All of one node's relations are followed; `done` gains nothing yet. */
  method ExpandNode(g: Graph, seed: nat, max: nat, cur: nat, d: nat, ghost done: set<nat>,
                    visited0: set<nat>, queue0: seq<(nat, nat)>, results0: seq<Hit>, ghost lab0: map<nat, nat>)
    returns (visited: set<nat>, queue: seq<(nat, nat)>, results: seq<Hit>, ghost lab: map<nat, nat>)
    requires SearchInv(g, seed, max, visited0, queue0, results0, lab0, d)
    requires cur in lab0 && lab0[cur] == d < max
    requires Expanded(g, max, lab0, done) && Covered(queue0, lab0, done + {cur})
    ensures SearchInv(g, seed, max, visited, queue, results, lab, d)
    ensures Expanded(g, max, lab, done + {cur}) && Covered(queue, lab, done + {cur})
    ensures lab0.Keys <= lab.Keys <= Ids(g) + {seed} && (lab.Keys == lab0.Keys ==> queue == queue0)
  {
    hide LabelsSound, HitsMatch, QueueOrdered, Covered, GetEntity;
    visited, queue, results, lab := visited0, queue0, results0, lab0;
    var neighbours := Neighbours(g.relations, cur);
    for k := 0 to |neighbours|
      invariant SearchInv(g, seed, max, visited, queue, results, lab, d)
      invariant cur in lab && lab[cur] == d
      invariant Expanded(g, max, lab, done) && Covered(queue, lab, done + {cur})
      invariant forall m :: 0 <= m < k && Stored(g, neighbours[m]) ==> neighbours[m] in lab
      invariant lab0.Keys <= lab.Keys && (lab.Keys == lab0.Keys ==> queue == queue0)
    {
      var n := neighbours[k];
      if n !in visited {
        match GetEntity(g.entities, n) {
          case Some(e) =>
            assert n in neighbours && Adjacent(g, cur, n);
            DiscoverKeepsInv(g, seed, max, visited, queue, results, lab, d, cur, e);
            CoveredAfterPush(queue, lab, done + {cur}, n, d + 1);
            results := results + [(e, d + 1)];
            queue := queue + [(n, d + 1)];
            lab := lab[n := d + 1];
          case None =>
        }
        visited := visited + {n};
      }
    }
    LabelledAreStored(g, seed, max, lab);
    forall w | Adjacent(g, cur, w) && Stored(g, w)
      ensures w in lab && lab[w] <= d + 1
    {
      assert w in neighbours;
    }
  }

  lemma LabelledAreStored(g: Graph, seed: nat, max: nat, lab: map<nat, nat>)
    requires LabelsSound(g, seed, max, lab)
    ensures lab.Keys <= Ids(g) + {seed}
  {
  }

  lemma CoveredAfterPush(queue: seq<(nat, nat)>, lab: map<nat, nat>, done: set<nat>, n: nat, d: nat)
    requires Covered(queue, lab, done)
    ensures Covered(queue + [(n, d)], lab[n := d], done)
  {
    forall v | v in lab[n := d] && v !in done
      ensures Queued(queue + [(n, d)], v)
    {
      if v == n {
        assert (queue + [(n, d)])[|queue|].0 == v;
      } else {
        assert Queued(queue, v);
        var i :| 0 <= i < |queue| && queue[i].0 == v;
        assert (queue + [(n, d)])[i].0 == v;
      }
    }
  }

  lemma PopKeepsInv(g: Graph, seed: nat, max: nat, visited: set<nat>, queue: seq<(nat, nat)>,
                    results: seq<Hit>, lab: map<nat, nat>, d: nat)
    requires SearchInv(g, seed, max, visited, queue, results, lab, d) && queue != []
    ensures SearchInv(g, seed, max, visited, queue[1..], results, lab, queue[0].1)
    ensures queue[0].0 in lab && lab[queue[0].0] == queue[0].1
  {
    hide LabelsSound, HitsMatch, VisitedMatches;
  }

  lemma CoveredAfterPop(queue: seq<(nat, nat)>, lab: map<nat, nat>, done: set<nat>)
    requires Covered(queue, lab, done) && queue != []
    ensures Covered(queue[1..], lab, done + {queue[0].0})
  {
    forall v | v in lab && v !in done + {queue[0].0}
      ensures Queued(queue[1..], v)
    {
      assert Queued(queue, v);
      var i :| 0 <= i < |queue| && queue[i].0 == v;
      assert queue[1..][i - 1].0 == v;
    }
  }

  lemma {:induction false} LabelHasWalk(g: Graph, seed: nat, max: nat, lab: map<nat, nat>, v: nat) returns (p: seq<nat>)
    requires LabelsSound(g, seed, max, lab) && v in lab
    ensures Walk(g, seed, v, p) && |p| == lab[v] + 1
    decreases lab[v]
  {
    if v == seed {
      p := [seed];
    } else {
      assert HasParent(g, lab, v);
      var u :| u in lab && lab[u] + 1 == lab[v] && Adjacent(g, u, v);
      p := LabelHasWalk(g, seed, max, lab, u);
      WalkExtended(g, seed, u, p, v);
      p := p + [v];
    }
  }

  lemma {:induction false} WalkBoundsLabel(g: Graph, seed: nat, max: nat, lab: map<nat, nat>, v: nat, p: seq<nat>)
    requires LabelsSound(g, seed, max, lab) && Expanded(g, max, lab, lab.Keys)
    requires Walk(g, seed, v, p) && |p| <= max + 1
    ensures v in lab && lab[v] <= |p| - 1
    decreases |p|
  {
    if |p| > 1 {
      WalkShortened(g, seed, v, p);
      WalkBoundsLabel(g, seed, max, lab, p[|p| - 2], p[..|p| - 1]);
    }
  }

  lemma LabelIsDistance(g: Graph, seed: nat, max: nat, lab: map<nat, nat>, v: nat)
    requires LabelsSound(g, seed, max, lab) && Expanded(g, max, lab, lab.Keys) && v in lab
    ensures IsDistance(g, seed, v, lab[v])
  {
    var q := LabelHasWalk(g, seed, max, lab, v);
    forall p | Walk(g, seed, v, p)
      ensures |p| >= lab[v] + 1
    {
      if |p| <= max + 1 { WalkBoundsLabel(g, seed, max, lab, v, p); }
    }
  }

  /** What the traversal promises about its result list. */
  ghost predicate ExactNeighbourhood(g: Graph, seed: nat, max: nat, results: seq<Hit>) {
    && (forall i :: 0 <= i < |results| ==>
          var (e, d) := results[i];
          GetEntity(g.entities, e.id) == Some(e) && e.id != seed && d <= max && IsDistance(g, seed, e.id, d))
    && (forall v :: v != seed && Within(g, seed, v, max) ==> Listed(results, v))
    && (forall i, j :: 0 <= i < j < |results| ==> results[i].0.id != results[j].0.id && results[i].1 <= results[j].1)
  }

  lemma FinishedSearchIsExact(g: Graph, seed: nat, max: nat, visited: set<nat>, results: seq<Hit>, lab: map<nat, nat>,
                              d: nat)
    requires SearchInv(g, seed, max, visited, [], results, lab, d) && Expanded(g, max, lab, lab.Keys)
    ensures ExactNeighbourhood(g, seed, max, results)
  {
    forall v | v in lab { LabelIsDistance(g, seed, max, lab, v); }
    forall v | v != seed && Within(g, seed, v, max)
      ensures Listed(results, v)
    {
      var p :| Walk(g, seed, v, p) && |p| <= max + 1;
      WalkBoundsLabel(g, seed, max, lab, v, p);
    }
  }

  method BfsNeighbors(g: Graph, seed: nat, max: nat) returns (results: seq<Hit>)
    ensures ExactNeighbourhood(g, seed, max, results)
  {
    var visited, queue := {seed}, [(seed, 0)];
    results := [];
    ghost var lab: map<nat, nat>, done: set<nat>, d: nat := map[seed := 0], {}, 0;
    assert queue[0].0 == seed;
    hide SearchInv, Expanded, Covered, ExactNeighbourhood;
    while queue != []
      invariant SearchInv(g, seed, max, visited, queue, results, lab, d)
      invariant Expanded(g, max, lab, done) && Covered(queue, lab, done)
      decreases |Ids(g) + {seed} - lab.Keys|, |queue|
    {
      var (cur, depth) := queue[0];
      PopKeepsInv(g, seed, max, visited, queue, results, lab, d);
      CoveredAfterPop(queue, lab, done);
      d := depth;
      queue := queue[1..];
      if depth < max {
        ghost var before := lab;
        visited, queue, results, lab := ExpandNode(g, seed, max, cur, depth, done, visited, queue, results, lab);
        MeasureDrops(g, seed, before, lab);
      } else {
        ExpandedAtBound(g, max, lab, done, cur);
      }
      done := done + {cur};
    }
    AllDone(g, max, lab, done);
    FinishedSearchIsExact(g, seed, max, visited, results, lab, d);
  }

  lemma ExpandedAtBound(g: Graph, max: nat, lab: map<nat, nat>, done: set<nat>, cur: nat)
    requires Expanded(g, max, lab, done) && cur in lab && lab[cur] >= max
    ensures Expanded(g, max, lab, done + {cur})
  {
    hide Adjacent, Stored;
  }

  lemma AllDone(g: Graph, max: nat, lab: map<nat, nat>, done: set<nat>)
    requires Covered([], lab, done) && Expanded(g, max, lab, done)
    ensures done == lab.Keys
  {
  }

  lemma MeasureDrops(g: Graph, seed: nat, before: map<nat, nat>, after: map<nat, nat>)
    requires before.Keys <= after.Keys <= Ids(g) + {seed}
    ensures |Ids(g) + {seed} - after.Keys| <= |Ids(g) + {seed} - before.Keys|
    ensures before.Keys != after.Keys ==> |Ids(g) + {seed} - after.Keys| < |Ids(g) + {seed} - before.Keys|
  {
    var small, large := Ids(g) + {seed} - after.Keys, Ids(g) + {seed} - before.Keys;
    assert small <= large;
    SubsetSize(small, large);
    if before.Keys != after.Keys {
      var v :| v in after.Keys && v !in before.Keys;
      assert v in large && v !in small;
    }
  }

  lemma {:induction false} SubsetSize(a: set<nat>, b: set<nat>)
    requires a <= b
    ensures |a| <= |b| && (a != b ==> |a| < |b|)
  {
    assert b == a + (b - a);
    if a != b { var x :| x in b - a; }
  }

  // ---- Subgraph extraction -------------------------------------------------

  /** Seeds, stored or not, together with everything in range of one of them. */
  ghost predicate InRange(g: Graph, seeds: seq<nat>, max: nat, v: nat) {
    v in seeds || exists s :: s in seeds && Within(g, s, v, max)
  }

  ghost function RangeIds(g: Graph, seeds: seq<nat>, max: nat): set<nat> {
    set v | v in Ids(g) + (set s | s in seeds) && InRange(g, seeds, max, v)
  }

  lemma WithinIsStored(g: Graph, s: nat, v: nat, max: nat)
    requires Within(g, s, v, max) && v != s
    ensures Stored(g, v)
  {
    var p :| Walk(g, s, v, p) && |p| <= max + 1;
    WalkShortened(g, s, v, p);
  }

  /** The entities kept are exactly those in range, the relations those with both ends in range. */
  /** `v` is within the distance of one of the first `k` seeds. */
  ghost predicate Reached(g: Graph, seeds: seq<nat>, k: nat, max: nat, v: nat)
    requires k <= |seeds|
  {
    exists m :: 0 <= m < k && Within(g, seeds[m], v, max)
  }

  lemma ReachedNext(g: Graph, seeds: seq<nat>, k: nat, max: nat, v: nat)
    requires k < |seeds|
    ensures Reached(g, seeds, k + 1, max, v) <==> Reached(g, seeds, k, max, v) || Within(g, seeds[k], v, max)
  {
    hide Within;
  }

  lemma ReachedIsInRange(g: Graph, seeds: seq<nat>, max: nat, v: nat)
    ensures v in seeds || Reached(g, seeds, |seeds|, max, v) <==> v in RangeIds(g, seeds, max)
  {
    hide Within;
    if s :| s in seeds && Within(g, s, v, max) && v != s { WithinIsStored(g, s, v, max); }
  }

  method AddIds(ids0: set<nat>, hits: seq<Hit>) returns (ids: set<nat>)
    ensures forall v :: v in ids <==> v in ids0 || Listed(hits, v)
  {
    ids := ids0;
    for h := 0 to |hits|
      invariant forall v :: v in ids <==> v in ids0 || exists m :: 0 <= m < h && hits[m].0.id == v
    {
      ids := ids + {hits[h].0.id};
    }
  }

  method GetSubgraph(g: Graph, seeds: seq<nat>, max: nat) returns (entities: seq<Entity>, relations: seq<Relation>)
    ensures entities == KeepEntities(g.entities, RangeIds(g, seeds, max))
    ensures relations == KeepRelations(g.relations, RangeIds(g, seeds, max))
    ensures IsFilter(g.entities, entities, (e: Entity) => e.id in RangeIds(g, seeds, max))
    ensures IsFilter(g.relations, relations,
                     (r: Relation) => r.src in RangeIds(g, seeds, max) && r.tgt in RangeIds(g, seeds, max))
  {
    hide Within, Listed, ExactNeighbourhood, IsFilter, KeepEntities, KeepRelations;
    var entityIds := set s | s in seeds;
    for k := 0 to |seeds|
      invariant forall v :: v in entityIds <==> v in seeds || Reached(g, seeds, k, max, v)
    {
      var hits := BfsNeighbors(g, seeds[k], max);
      ghost var before := entityIds;
      entityIds := AddIds(entityIds, hits);
      forall v
        ensures v in entityIds <==> v in seeds || Reached(g, seeds, k + 1, max, v)
      {
        HitsAreWithin(g, seeds[k], max, hits, v);
        ReachedNext(g, seeds, k, max, v);
      }
    }
    forall v
      ensures v in entityIds <==> v in RangeIds(g, seeds, max)
    {
      ReachedIsInRange(g, seeds, max, v);
    }
    assert entityIds == RangeIds(g, seeds, max);
    entities := KeepEntities(g.entities, entityIds);
    relations := KeepRelations(g.relations, entityIds);
    EntitiesFiltered(g.entities, entityIds, (e: Entity) => e.id in RangeIds(g, seeds, max));
    RelationsFiltered(g.relations, entityIds,
                      (r: Relation) => r.src in RangeIds(g, seeds, max) && r.tgt in RangeIds(g, seeds, max));
  }

  /** An unstored seed with a relation to another seed or, when the bound allows a step, to a stored entity. */
  ghost predicate DanglingSeed(g: Graph, seeds: seq<nat>, max: nat, s: nat) {
    s in seeds && !Stored(g, s) && exists v :: Adjacent(g, s, v) && (v in seeds || (max > 0 && Stored(g, v)))
  }

  /** The documentation says both ends of a returned relation are in the returned entity set; the code
      keeps unstored seeds in its id set, so that holds exactly when no seed dangles. */
  lemma RelationsClosedIffNoDanglingSeed(g: Graph, seeds: seq<nat>, max: nat)
    ensures (forall r :: r in KeepRelations(g.relations, RangeIds(g, seeds, max)) ==>
              Stored(g, r.src) && Stored(g, r.tgt))
        <==> (forall s :: !DanglingSeed(g, seeds, max, s))
  {
    var ids := RangeIds(g, seeds, max);
    forall r | r in KeepRelations(g.relations, ids)
      ensures Stored(g, r.src) || DanglingSeed(g, seeds, max, r.src)
      ensures Stored(g, r.tgt) || DanglingSeed(g, seeds, max, r.tgt)
    {
      if !Stored(g, r.src) { UnstoredEndDangles(g, seeds, max, r, r.src, r.tgt); }
      if !Stored(g, r.tgt) { UnstoredEndDangles(g, seeds, max, r, r.tgt, r.src); }
    }
    if s :| DanglingSeed(g, seeds, max, s) {
      var v :| Adjacent(g, s, v) && (v in seeds || (max > 0 && Stored(g, v)));
      if v !in seeds {
        assert Walk(g, s, v, [s, v]);
        assert Within(g, s, v, max);
      }
      var r :| r in g.relations && Joins(r, s, v);
      assert s in ids && v in ids && r in KeepRelations(g.relations, ids);
    }
  }

  /** A subgraph around an unstored seed: the relation to its stored neighbour is returned, the seed is not. */
  lemma UnstoredSeedDangles()
    ensures var r := Relation(1, 2, "knows", 1.0);
      var g := Graph([Entity(2, "b", "person", -1)], [r]);
      && DanglingSeed(g, [1], 1, 1) && r in KeepRelations(g.relations, RangeIds(g, [1], 1))
      && KeepEntities(g.entities, RangeIds(g, [1], 1)) == g.entities && !Stored(g, 1)
  {
    var r := Relation(1, 2, "knows", 1.0);
    var b := Entity(2, "b", "person", -1);
    var g := Graph([b], [r]);
    assert b in g.entities && r in g.relations && Joins(r, 1, 2);
    assert Adjacent(g, 1, 2) && Stored(g, 2) && !Stored(g, 1);
    var walk := [1, 2];
    assert Walk(g, 1, 2, walk) && Within(g, 1, 2, 1);
    assert 1 in [1] && InRange(g, [1], 1, 2) && InRange(g, [1], 1, 1);
    assert g.entities[..0] == [];
  }

  lemma UnstoredEndDangles(g: Graph, seeds: seq<nat>, max: nat, r: Relation, u: nat, v: nat)
    requires r in g.relations && Joins(r, u, v) && u in RangeIds(g, seeds, max) && v in RangeIds(g, seeds, max)
    requires !Stored(g, u)
    ensures DanglingSeed(g, seeds, max, u)
  {
    assert u in seeds && Adjacent(g, u, v);
    if v !in seeds {
      var s :| s in seeds && Within(g, s, v, max);
      var p :| Walk(g, s, v, p) && |p| <= max + 1;
      assert |p| > 1;
      WithinIsStored(g, s, v, max);
    }
  }

  lemma HitsAreWithin(g: Graph, seed: nat, max: nat, hits: seq<Hit>, v: nat)
    requires ExactNeighbourhood(g, seed, max, hits)
    ensures v == seed || (Within(g, seed, v, max) <==> Listed(hits, v))
  {
    if Listed(hits, v) {
      var m :| 0 <= m < |hits| && hits[m].0.id == v;
      var p :| Walk(g, seed, v, p) && |p| == hits[m].1 + 1;
    }
  }

  /** `ys` is what `keep` selects from `xs`, in order and as often as it stands there: `at` are the places. */
  ghost predicate Selects<T(!new)>(xs: seq<T>, ys: seq<T>, keep: T -> bool, at: seq<nat>) {
    && |at| == |ys| && (forall i :: 0 <= i < |at| ==> at[i] < |xs| && ys[i] == xs[at[i]])
    && (forall i, j :: 0 <= i < j < |at| ==> at[i] < at[j])
    && (forall k :: 0 <= k < |xs| ==> (keep(xs[k]) <==> k in at))
  }

  ghost predicate IsFilter<T(!new)>(xs: seq<T>, ys: seq<T>, keep: T -> bool) {
    exists at :: Selects(xs, ys, keep, at)
  }

  lemma SelectsSnoc<T(!new)>(xs: seq<T>, x: T, ys: seq<T>, keep: T -> bool)
    requires IsFilter(xs, ys, keep)
    ensures IsFilter(xs + [x], if keep(x) then ys + [x] else ys, keep)
  {
    hide Selects;
    var at :| Selects(xs, ys, keep, at);
    if keep(x) {
      SelectsOneMore(xs, x, ys, keep, at);
    } else {
      SelectsNoMore(xs, x, ys, keep, at);
    }
  }

  lemma SelectsOneMore<T(!new)>(xs: seq<T>, x: T, ys: seq<T>, keep: T -> bool, at: seq<nat>)
    requires Selects(xs, ys, keep, at) && keep(x)
    ensures Selects(xs + [x], ys + [x], keep, at + [|xs|])
  {
    var all, more := xs + [x], at + [|xs|];
    forall k | 0 <= k < |all|
      ensures keep(all[k]) <==> k in more
    {
      assert k in more <==> k in at || k == |xs|;
      assert k < |xs| ==> all[k] == xs[k];
      assert k == |xs| ==> all[k] == x;
    }
    assert forall i :: 0 <= i < |at| ==> more[i] == at[i] && all[at[i]] == xs[at[i]];
  }

  lemma SelectsNoMore<T(!new)>(xs: seq<T>, x: T, ys: seq<T>, keep: T -> bool, at: seq<nat>)
    requires Selects(xs, ys, keep, at) && !keep(x)
    ensures Selects(xs + [x], ys, keep, at)
  {
    var all := xs + [x];
    forall k | 0 <= k < |all|
      ensures keep(all[k]) <==> k in at
    {
      assert k < |xs| ==> all[k] == xs[k];
      assert k == |xs| ==> all[k] == x;
    }
  }

  lemma {:induction false} EntitiesFiltered(entities: seq<Entity>, ids: set<nat>, keep: Entity -> bool)
    requires forall e :: keep(e) <==> e.id in ids
    ensures IsFilter(entities, KeepEntities(entities, ids), keep)
  {
    hide IsFilter;
    if entities == [] {
      FilterNone(keep);
    } else {
      var before, last := entities[..|entities| - 1], entities[|entities| - 1];
      EntitiesFiltered(before, ids, keep);
      SelectsSnoc(before, last, KeepEntities(before, ids), keep);
      assert before + [last] == entities;
    }
  }

  lemma FilterNone<T(!new)>(keep: T -> bool)
    ensures IsFilter([], [], keep)
  {
    var none: seq<T> := [];
    assert Selects(none, none, keep, []);
  }

  lemma {:induction false} RelationsFiltered(relations: seq<Relation>, ids: set<nat>, keep: Relation -> bool)
    requires forall r :: keep(r) <==> r.src in ids && r.tgt in ids
    ensures IsFilter(relations, KeepRelations(relations, ids), keep)
  {
    hide IsFilter;
    if relations == [] {
      FilterNone(keep);
    } else {
      var before, last := relations[..|relations| - 1], relations[|relations| - 1];
      RelationsFiltered(before, ids, keep);
      SelectsSnoc(before, last, KeepRelations(before, ids), keep);
      assert before + [last] == relations;
    }
  }

  function KeepEntities(entities: seq<Entity>, ids: set<nat>): (r: seq<Entity>)
    ensures forall e :: e in r <==> e in entities && e.id in ids
  {
    if entities == [] then []
    else
      var before, last := entities[..|entities| - 1], entities[|entities| - 1];
      assert entities == before + [last];
      if last.id in ids then KeepEntities(before, ids) + [last] else KeepEntities(before, ids)
  }

  function KeepRelations(relations: seq<Relation>, ids: set<nat>): (r: seq<Relation>)
    ensures forall e :: e in r <==> e in relations && e.src in ids && e.tgt in ids
  {
    if relations == [] then []
    else
      var before, last := relations[..|relations| - 1], relations[|relations| - 1];
      assert relations == before + [last];
      if last.src in ids && last.tgt in ids then KeepRelations(before, ids) + [last] else KeepRelations(before, ids)
  }
}
