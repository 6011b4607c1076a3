/** Entity management in the knowledge cache: id assignment and fuzzy
    resolution by edit distance. */
module Resolution {
  import opened Wrappers
  import opened KnowledgeGraph
  import EditDistance

  /** Distance of a stored name from the wanted one, both lower-cased. */
  function NameDistance(lower: string -> string, name: string, e: Entity): nat {
    EditDistance.Levenshtein(lower(name), lower(e.name))
  }

  /** `k` is the first entity among the first `n` at the least distance, and that is within the bound. */
  predicate FirstNearest(lower: string -> string, name: string, max: nat, entities: seq<Entity>, n: nat, k: nat) {
    k < n <= |entities| &&
    NameDistance(lower, name, entities[k]) <= max &&
    forall j :: 0 <= j < n ==>
      NameDistance(lower, name, entities[k]) <= NameDistance(lower, name, entities[j]) &&
      (j < k ==> NameDistance(lower, name, entities[k]) < NameDistance(lower, name, entities[j]))
  }

  predicate NoneNear(lower: string -> string, name: string, max: nat, entities: seq<Entity>, n: nat) {
    n <= |entities| && forall j :: 0 <= j < n ==> NameDistance(lower, name, entities[j]) > max
  }

  /** The outcome of the search is determined: it is the first nearest entity or nothing. */
  lemma SearchOutcomeUnique(lower: string -> string, name: string, max: nat, entities: seq<Entity>, k: nat, m: nat)
    requires FirstNearest(lower, name, max, entities, |entities|, k)
    ensures !NoneNear(lower, name, max, entities, |entities|)
    ensures FirstNearest(lower, name, max, entities, |entities|, m) ==> m == k
  {
    if m < |entities| {
      var dk, dm := NameDistance(lower, name, entities[k]), NameDistance(lower, name, entities[m]);
      assert dk <= dm && (m < k ==> dk < dm);
    }
  }

  ghost predicate UniqueIds(entities: seq<Entity>) {
    forall i, j :: 0 <= i < j < |entities| ==> entities[i].id != entities[j].id
  }

  /** The search loop: the first entity at least distance within the bound, if any. */
  method FindNearest(lower: string -> string, name: string, max: nat, entities: seq<Entity>) returns (r: Option<nat>)
    ensures r.None? <==> NoneNear(lower, name, max, entities, |entities|)
    ensures r.Some? ==> FirstNearest(lower, name, max, entities, |entities|, r.value)
  {
    var best: Option<(nat, nat)> := None;
    for i := 0 to |entities|
      invariant match best
                case None => NoneNear(lower, name, max, entities, i)
                case Some((k, d)) =>
                  FirstNearest(lower, name, max, entities, i, k) && d == NameDistance(lower, name, entities[k])
    {
      var dist := EditDistance.ComputeLevenshtein(lower(name), lower(entities[i].name));
      if dist <= max && (best.None? || dist < best.value.1) { best := Some((i, dist)); }
    }
    match best {
      case Some((k, _)) =>
        SearchOutcomeUnique(lower, name, max, entities, k, k);
        r := Some(k);
      case None =>
        r := None;
    }
  }

  class KnowledgeCache {
    var entities: seq<Entity>
    var relations: seq<Relation>
    var nextEntityId: nat

    /** Ids handed out so far lie below the counter. */
    ghost predicate Valid()
      reads this
    {
      forall i :: 0 <= i < |entities| ==> entities[i].id < nextEntityId
    }

    constructor ()
      ensures Valid() && entities == [] && relations == [] && nextEntityId == 0
    {
      entities, relations, nextEntityId := [], [], 0;
    }

    method AddEntity(name: string, kind: string, embeddingIdx: int) returns (id: nat)
      requires Valid()
      modifies this
      ensures Valid() && relations == old(relations)
      ensures entities == old(entities) + [Entity(id, name, kind, embeddingIdx)]
      ensures id == old(nextEntityId) && nextEntityId == id + 1
      ensures forall e :: e in old(entities) ==> e.id != id
      ensures old(UniqueIds(entities)) ==> UniqueIds(entities)
    {
      id := nextEntityId;
      nextEntityId := nextEntityId + 1;
      entities := entities + [Entity(id, name, kind, embeddingIdx)];
    }

    /** The closest stored name within the bound wins, the earliest on ties; otherwise one new entity. */
    method ResolveOrCreate(lower: string -> string, name: string, kind: string, embeddingIdx: int, max: nat)
      returns (id: nat, created: bool)
      requires Valid()
      modifies this
      ensures Valid() && relations == old(relations)
      ensures created <==> old(NoneNear(lower, name, max, entities, |entities|))
      ensures !created ==> entities == old(entities) && nextEntityId == old(nextEntityId)
      ensures !created ==>
        exists k: nat :: FirstNearest(lower, name, max, entities, |entities|, k) && id == entities[k].id
      ensures created ==> entities == old(entities) + [Entity(id, name, kind, embeddingIdx)]
      ensures created ==> id == old(nextEntityId) && nextEntityId == id + 1
      ensures created ==> forall e :: e in old(entities) ==> e.id != id
      ensures old(UniqueIds(entities)) ==> UniqueIds(entities)
    {
      hide FirstNearest, NoneNear, UniqueIds;
      var best := FindNearest(lower, name, max, entities);
      match best {
        case Some(k) =>
          SearchOutcomeUnique(lower, name, max, entities, k, k);
          id, created := entities[k].id, false;
        case None =>
          id := AddEntity(name, kind, embeddingIdx);
          created := true;
      }
    }

    /** Resolving a name a second time, with the same bound, finds the entity of the first time. */
    method ResolveTwice(lower: string -> string, name: string, kind: string, embeddingIdx: int, max: nat)
      returns (first: nat, second: nat)
      requires Valid()
      modifies this
      ensures Valid() && first == second
    {
      hide EditDistance.Distance;
      var created, again;
      first, created := ResolveOrCreate(lower, name, kind, embeddingIdx, max);
      ghost var k: nat;
      if created {
        k := |entities| - 1;
        EditDistance.LevenshteinIsMetric(lower(name), lower(name), []);
        assert NameDistance(lower, name, entities[k]) == 0;
      } else {
        k :| FirstNearest(lower, name, max, entities, |entities|, k) && first == entities[k].id;
      }
      assert FirstNearest(lower, name, max, entities, |entities|, k);
      second, again := ResolveOrCreate(lower, name, kind, embeddingIdx, max);
      forall m | FirstNearest(lower, name, max, entities, |entities|, m) {
        SearchOutcomeUnique(lower, name, max, entities, k, m);
      }
    }
  }

  // ---- Loading ids from a file -------------------------------------------

  /** The loader's counter: a negative stored id is an error; otherwise one past the largest. */
  method LoadNextId(raw: seq<int>) returns (r: Option<nat>)
    ensures r.None? <==> exists i :: 0 <= i < |raw| && raw[i] < 0
    ensures r.Some? ==> forall i :: 0 <= i < |raw| ==> raw[i] < r.value
    ensures r.Some? && r.value > 0 ==> r.value - 1 in raw
  {
    var next: nat := 0;
    for i := 0 to |raw|
      invariant forall j :: 0 <= j < i ==> 0 <= raw[j] < next
      invariant next > 0 ==> next - 1 in raw
    {
      if raw[i] < 0 { return None; }
      if next < raw[i] + 1 { next := raw[i] + 1; }
    }
    return Some(next);
  }
}
