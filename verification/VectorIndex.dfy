/** The vector index as the store sees it: nodes numbered from zero, some soft-deleted. */
module VectorIndex {
  import opened Wrappers
  import opened Cache

  datatype Index = Index(vectors: seq<Vector>, deleted: set<nat>)

  predicate Indexable(rows: seq<Row>, dim: nat) {
    dim > 0 && rows != [] && forall i :: 0 <= i < |rows| ==> |rows[i].embedding| == dim
  }

  /** `index` holds these rows: same vectors under the same ids, deleted exactly where tombstoned. */
  ghost predicate Holds(index: Index, rows: seq<Row>) {
    && |index.vectors| == |rows|
    && (forall i :: 0 <= i < |rows| ==> index.vectors[i] == rows[i].embedding)
    && (forall i: nat :: i in index.deleted <==> i < |rows| && rows[i].tombstone != 0)
  }

  /** A present index holds the rows and the rows are indexable; an absent one means they are not. */
  ghost predicate Fresh(index: Option<Index>, rows: seq<Row>, dim: nat) {
    (index.Some? <==> Indexable(rows, dim)) && (index.Some? ==> Holds(index.value, rows))
  }

  /** Unless a rebuild is pending, the index is fresh for the first `synced` rows. */
  ghost predicate Mirrors(index: Option<Index>, dirty: bool, synced: nat, rows: seq<Row>, dim: nat) {
    dirty || (synced <= |rows| && Fresh(index, rows[..synced], dim))
  }

  /** A fresh index answers with live rows only, and can answer with any of them. */
  lemma CandidatesAreLive(index: Index, rows: seq<Row>, id: nat)
    requires Holds(index, rows)
    ensures id < |index.vectors| && id !in index.deleted <==> IsLive(rows, id)
  {
  }

  function MarkDeleted(index: Index, i: nat): Index {
    if i < |index.vectors| then index.(deleted := index.deleted + {i}) else index
  }

  lemma InsertHolds(index: Index, rows: seq<Row>, row: Row, dim: nat)
    requires Fresh(Some(index), rows, dim) && row.tombstone == 0 && |row.embedding| == dim
    ensures Fresh(Some(index.(vectors := index.vectors + [row.embedding])), rows + [row], dim)
  {
  }

  lemma DeleteMirrors(index: Option<Index>, dirty: bool, synced: nat, rows: seq<Row>, dim: nat, i: nat)
    requires Mirrors(index, dirty, synced, rows, dim) && IsLive(rows, i)
    ensures Mirrors(if index.Some? then Some(MarkDeleted(index.value, i)) else None, dirty, synced, Deleted(rows, i),
                    dim)
  {
    if !dirty {
      var before, after := rows[..synced], Deleted(rows, i)[..synced];
      assert forall k :: 0 <= k < synced ==> after[k].embedding == before[k].embedding;
      assert forall k :: 0 <= k < synced && k != i ==> after[k] == before[k];
      assert Indexable(after, dim) <==> Indexable(before, dim);
      if index.Some? {
        DeleteHolds(index.value, before, after, i);
      }
    }
  }

  lemma DeleteHolds(index: Index, before: seq<Row>, after: seq<Row>, i: nat)
    requires Holds(index, before) && after == Deleted(before, i)
    requires i < |before| ==> before[i].tombstone == 0
    ensures Holds(MarkDeleted(index, i), after)
  {
  }

  /** Rows that keep their embeddings and tombstones keep the mirror. */
  lemma WeightsMirror(index: Option<Index>, dirty: bool, synced: nat, before: seq<Row>, after: seq<Row>, dim: nat)
    requires Mirrors(index, dirty, synced, before, dim) && |before| == |after|
    requires forall i :: 0 <= i < |before| ==>
      before[i].embedding == after[i].embedding && before[i].tombstone == after[i].tombstone
    ensures Mirrors(index, dirty, synced, after, dim)
  {
    if !dirty {
      var x, y := before[..synced], after[..synced];
      assert forall i :: 0 <= i < synced ==> x[i].embedding == y[i].embedding && x[i].tombstone == y[i].tombstone;
      assert Indexable(x, dim) <==> Indexable(y, dim);
    }
  }

  lemma GrowMirrors(index: Option<Index>, dirty: bool, synced: nat, rows: seq<Row>, more: seq<Row>, dim: nat)
    requires Mirrors(index, dirty, synced, rows, dim)
    ensures Mirrors(index, dirty, synced, rows + more, dim)
  {
    if !dirty {
      assert (rows + more)[..synced] == rows[..synced];
    }
  }

  /** Builds the index over the whole cache and re-applies the tombstones. */
  method Build(rows: seq<Row>, dim: nat) returns (index: Option<Index>)
    ensures Fresh(index, rows, dim)
  {
    if !Indexable(rows, dim) {
      return None;
    }
    var built := Index(seq(|rows|, i requires 0 <= i < |rows| => rows[i].embedding), {});
    for i := 0 to |rows|
      invariant |built.vectors| == |rows| && forall k :: 0 <= k < |rows| ==> built.vectors[k] == rows[k].embedding
      invariant forall k: nat :: k in built.deleted <==> k < i && rows[k].tombstone != 0
    {
      if rows[i].tombstone != 0 {
        built := MarkDeleted(built, i);
      }
    }
    index := Some(built);
  }
}
