/** The in-memory cache: nine parallel arrays that act as one list of rows. */
module Cache {
  import opened Wrappers

  type Vector = seq<real>

  /** One memory; `tombstone` is zero while the row is live. */
  datatype Row = Row(chunk: string, embedding: Vector, channel: string, timestamp: real, session: string, tags: string,
                     tombstone: nat, weight: real)

  /** What a caller hands over to be stored. */
  datatype Entry = Entry(chunk: string, embedding: Vector, channel: string, timestamp: real, session: string,
                         tags: string)

  /** A live row with the contents of an entry. */
  predicate Carries(r: Row, e: Entry) {
    && r.chunk == e.chunk && r.embedding == e.embedding && r.channel == e.channel && r.timestamp == e.timestamp
    && r.session == e.session && r.tags == e.tags && r.tombstone == 0
  }

  function NewRow(e: Entry): Row {
    Row(e.chunk, e.embedding, e.channel, e.timestamp, e.session, e.tags, 0, 1.0)
  }

  function Updated(rows: seq<Row>, i: nat, e: Entry): seq<Row> {
    if i < |rows| then rows[i := NewRow(e).(tags := rows[i].tags, tombstone := rows[i].tombstone)] else rows
  }

  predicate IsLive(rows: seq<Row>, i: nat) { i < |rows| && rows[i].tombstone == 0 }

  function Deleted(rows: seq<Row>, i: nat): seq<Row> {
    if IsLive(rows, i) then rows[i := rows[i].(tombstone := 1)] else rows
  }

  function Compacted(rows: seq<Row>): seq<Row> {
    if rows == [] then []
    else
      var before, last := Compacted(rows[..|rows| - 1]), rows[|rows| - 1];
      if last.tombstone == 0 then before + [last] else before
  }

  /** Where each old index went. */
  function IndexMap(rows: seq<Row>): (m: seq<Option<nat>>)
    ensures |m| == |rows|
  {
    if rows == [] then []
    else
      var before := rows[..|rows| - 1];
      IndexMap(before) + [if rows[|rows| - 1].tombstone == 0 then Some(|Compacted(before)|) else None]
  }

  function Flattened(rows: seq<Row>): Vector {
    if rows == [] then [] else Flattened(rows[..|rows| - 1]) + rows[|rows| - 1].embedding
  }

  function Tombstoned(rows: seq<Row>): nat {
    if rows == [] then 0 else Tombstoned(rows[..|rows| - 1]) + if rows[|rows| - 1].tombstone == 1 then 1 else 0
  }

  /** The share of rows carrying tombstone 1; an empty cache has none. */
  function TombstoneShare(rows: seq<Row>): real {
    if rows == [] then 0.0 else Tombstoned(rows) as real / |rows| as real
  }

  function FindFrom(rows: seq<Row>, key: string, i: nat): Option<nat>
    requires i <= |rows|
    decreases |rows| - i
  {
    if i == |rows| then None
    else if rows[i].tombstone == 0 && rows[i].tags == key then Some(i)
    else FindFrom(rows, key, i + 1)
  }

  /** The first live row with these tags; empty tags never match. */
  function FindByTags(rows: seq<Row>, key: string): (found: Option<nat>)
    ensures found.Some? ==> IsLive(rows, found.value) && rows[found.value].tags == key
  {
    FindFirst(rows, key, 0);
    if key == [] then None else FindFrom(rows, key, 0)
  }

  lemma {:induction false} FindFirst(rows: seq<Row>, key: string, i: nat)
    requires i <= |rows|
    ensures var found := FindFrom(rows, key, i);
      var end := if found.Some? then found.value else |rows|;
      (found.Some? ==> i <= end && IsLive(rows, end) && rows[end].tags == key) &&
      forall k :: i <= k < end ==> !(rows[k].tombstone == 0 && rows[k].tags == key)
    decreases |rows| - i
  {
    if i < |rows| && !(rows[i].tombstone == 0 && rows[i].tags == key) {
      FindFirst(rows, key, i + 1);
    }
  }

  lemma CompactedSnoc(before: seq<Row>, last: Row)
    ensures Compacted(before + [last]) == if last.tombstone == 0 then Compacted(before) + [last] else Compacted(before)
    ensures IndexMap(before + [last])
          == IndexMap(before) + [if last.tombstone == 0 then Some(|Compacted(before)|) else None]
    ensures Flattened(before + [last]) == Flattened(before) + last.embedding
  {
    assert (before + [last])[..|before|] == before;
  }

  ghost predicate Hits(m: seq<Option<nat>>, k: nat) { exists i :: 0 <= i < |m| && m[i] == Some(k) }

  /** Exactly the live indices have a new one, and there the same row. */
  ghost predicate Sends(rows: seq<Row>, kept: seq<Row>, m: seq<Option<nat>>) {
    && |m| == |rows|
    && (forall i :: 0 <= i < |rows| ==> (m[i].Some? <==> rows[i].tombstone == 0))
    && (forall i :: 0 <= i < |rows| && m[i].Some? ==> m[i].value < |kept| && kept[m[i].value] == rows[i])
  }

  ghost predicate InOrder(m: seq<Option<nat>>) {
    forall i, j :: 0 <= i < j < |m| && m[i].Some? && m[j].Some? ==> m[i].value < m[j].value
  }

  ghost predicate Onto(kept: seq<Row>, m: seq<Option<nat>>) { forall k: nat :: k < |kept| ==> Hits(m, k) }

  /** `m` sends the live indices of `rows` onto the indices of `kept`, in order and one to one,
      each to the same row, and sends every tombstoned index nowhere. */
  ghost predicate Renumbers(rows: seq<Row>, kept: seq<Row>, m: seq<Option<nat>>) {
    Sends(rows, kept, m) && InOrder(m) && Onto(kept, m)
  }

  lemma {:induction false} CompactRenumbers(rows: seq<Row>)
    ensures Renumbers(rows, Compacted(rows), IndexMap(rows))
  {
    if rows != [] {
      hide Compacted, IndexMap, Sends, InOrder, Onto;
      var before, last := rows[..|rows| - 1], rows[|rows| - 1];
      assert rows == before + [last];
      CompactRenumbers(before);
      CompactedSnoc(before, last);
      var kept, m := Compacted(before), IndexMap(before);
      if last.tombstone == 0 {
        KeepOne(before, last, kept, m);
      } else {
        DropOne(before, last, kept, m);
      }
    }
  }

  lemma KeepOne(before: seq<Row>, last: Row, kept: seq<Row>, m: seq<Option<nat>>)
    requires Renumbers(before, kept, m) && last.tombstone == 0
    ensures Renumbers(before + [last], kept + [last], m + [Some(|kept|)])
  {
    hide Hits;
    OntoGrows(kept, m, Some(|kept|));
    HitsLast(m, |kept|);
  }

  lemma DropOne(before: seq<Row>, last: Row, kept: seq<Row>, m: seq<Option<nat>>)
    requires Renumbers(before, kept, m) && last.tombstone != 0
    ensures Renumbers(before + [last], kept, m + [None])
  {
    hide Hits;
    OntoGrows(kept, m, None);
  }

  lemma OntoGrows(kept: seq<Row>, m: seq<Option<nat>>, next: Option<nat>)
    requires Onto(kept, m)
    ensures forall k: nat :: k < |kept| ==> Hits(m + [next], k)
  {
    forall k: nat | k < |kept|
      ensures Hits(m + [next], k)
    {
      assert Hits(m, k);
      var i :| 0 <= i < |m| && m[i] == Some(k);
      assert (m + [next])[i] == Some(k);
    }
  }

  lemma HitsLast(m: seq<Option<nat>>, k: nat)
    ensures Hits(m + [Some(k)], k)
  {
    assert (m + [Some(k)])[|m|] == Some(k);
  }

  /** Rows kept by compaction are the live ones: none is tombstoned, and compacting again changes nothing. */
  lemma {:induction false} CompactedIsLive(rows: seq<Row>)
    ensures forall r :: r in Compacted(rows) <==> r in rows && r.tombstone == 0
    ensures Compacted(Compacted(rows)) == Compacted(rows)
  {
    if rows != [] {
      hide IndexMap, Flattened;
      var before, last := rows[..|rows| - 1], rows[|rows| - 1];
      assert rows == before + [last];
      CompactedIsLive(before);
      CompactedSnoc(before, last);
      CompactedSnoc(Compacted(before), last);
    }
  }

  lemma {:induction false} NothingToCompact(rows: seq<Row>)
    ensures |Compacted(rows)| <= |rows| && (|Compacted(rows)| == |rows| ==> Compacted(rows) == rows)
  {
    if rows != [] {
      NothingToCompact(rows[..|rows| - 1]);
    }
  }

  lemma {:induction false} TombstonesCompact(rows: seq<Row>)
    ensures |Compacted(rows)| + Tombstoned(rows) <= |rows|
  {
    if rows != [] {
      TombstonesCompact(rows[..|rows| - 1]);
    }
  }

  class MemoryCache {
    const dim: nat
    const norm: Vector -> real
    var chunks: seq<string>
    var embeddings: seq<Vector>
    var channels: seq<string>
    var timestamps: seq<real>
    var sessions: seq<string>
    var tags: seq<string>
    var tombstones: seq<nat>
    var norms: seq<real>
    var weights: seq<real>

    /** The arrays stay parallel and the stored norms stay those of the embeddings. */
    ghost predicate Valid() reads this {
      && |embeddings| == |chunks| && |channels| == |chunks| && |timestamps| == |chunks| && |sessions| == |chunks|
      && |tags| == |chunks| && |tombstones| == |chunks| && |norms| == |chunks| && |weights| == |chunks|
      && forall i :: 0 <= i < |norms| ==> norms[i] == norm(embeddings[i])
    }

    ghost function RowAt(i: nat): Row
      requires Valid() && i < |chunks|
      reads this
    {
      Row(chunks[i], embeddings[i], channels[i], timestamps[i], sessions[i], tags[i], tombstones[i], weights[i])
    }

    ghost function Rows(): (rows: seq<Row>)
      requires Valid()
      reads this
      ensures |rows| == |chunks| && forall i :: 0 <= i < |rows| ==> rows[i] == RowAt(i)
    {
      seq(|chunks|, i requires 0 <= i < |chunks| reads this requires Valid() => RowAt(i))
    }

    constructor (dim: nat, norm: Vector -> real)
      ensures Valid() && Rows() == [] && this.dim == dim && this.norm == norm
    {
      this.dim, this.norm := dim, norm;
      chunks, embeddings, channels, timestamps, sessions := [], [], [], [], [];
      tags, tombstones, norms, weights := [], [], [], [];
    }

    method Push(e: Entry) returns (i: nat)
      requires Valid()
      modifies this
      ensures Valid() && Rows() == old(Rows()) + [NewRow(e)] && i == |old(Rows())|
      ensures Carries(Rows()[i], e) && Rows()[i].weight == 1.0
    {
      i := |chunks|;
      chunks, embeddings, channels, timestamps, sessions, tags, tombstones, norms, weights :=
        chunks + [e.chunk], embeddings + [e.embedding], channels + [e.channel], timestamps + [e.timestamp],
        sessions + [e.session], tags + [e.tags], tombstones + [0], norms + [norm(e.embedding)], weights + [1.0];
    }

    method Find(key: string) returns (found: Option<nat>)
      requires Valid()
      ensures found == FindByTags(Rows(), key)
    {
      if key == [] {
        return None;
      }
      for i := 0 to |tags|
        invariant FindFrom(Rows(), key, 0) == FindFrom(Rows(), key, i)
      {
        assert Rows()[i] == RowAt(i);
        if tombstones[i] == 0 && tags[i] == key {
          return Some(i);
        }
      }
      return None;
    }

    method Update(i: nat, e: Entry)
      requires Valid()
      modifies this
      ensures Valid() && Rows() == Updated(old(Rows()), i, e)
      ensures i < |Rows()| && old(Rows()[i].tombstone) == 0 ==>
        Carries(Rows()[i], e.(tags := old(Rows()[i].tags))) && Rows()[i].weight == 1.0
    {
      if i < |chunks| {
        chunks, embeddings, channels := chunks[i := e.chunk], embeddings[i := e.embedding], channels[i := e.channel];
        timestamps, sessions := timestamps[i := e.timestamp], sessions[i := e.session];
        norms, weights := norms[i := norm(e.embedding)], weights[i := 1.0];
      }
    }

    method MarkDeleted(i: nat) returns (marked: bool)
      requires Valid()
      modifies this
      ensures Valid() && Rows() == Deleted(old(Rows()), i) && marked == old(IsLive(Rows(), i))
    {
      marked := i < |tombstones| && tombstones[i] == 0;
      if marked {
        tombstones := tombstones[i := 1];
      }
    }

    method Compact() returns (removed: nat, moved: seq<Option<nat>>)
      requires Valid()
      modifies this
      ensures Valid() && Rows() == Compacted(old(Rows())) && removed == |old(Rows())| - |Rows()|
      ensures Renumbers(old(Rows()), Rows(), moved)
    {
      hide Compacted, IndexMap, Flattened, Renumbers;
      CompactRenumbers(Rows());
      NothingToCompact(Rows());
      var kept := new MemoryCache(dim, norm);
      moved := CopyLive(kept);
      removed := |chunks| - |kept.chunks|;
      Adopt(kept);
    }

    method CopyLive(kept: MemoryCache) returns (moved: seq<Option<nat>>)
      requires Valid() && kept.Valid() && kept != this && kept.norm == norm && kept.Rows() == []
      modifies kept
      ensures kept.Valid() && kept.Rows() == Compacted(Rows()) && moved == IndexMap(Rows())
    {
      hide Compacted, IndexMap, Flattened;
      ghost var rows := Rows();
      EmptyCompacts();
      moved := [];
      for i := 0 to |chunks|
        invariant Rows() == rows && kept.Valid()
        invariant kept.Rows() == Compacted(rows[..i]) && moved == IndexMap(rows[..i])
      {
        assert rows[..i + 1] == rows[..i] + [RowAt(i)];
        CompactedSnoc(rows[..i], RowAt(i));
        if tombstones[i] == 0 {
          moved := moved + [Some(|kept.chunks|)];
          CopyRow(kept, i);
        } else {
          moved := moved + [None];
        }
      }
      assert rows[..|rows|] == rows;
    }

    method Adopt(kept: MemoryCache)
      requires kept.Valid() && kept != this && kept.norm == norm
      modifies this
      ensures Valid() && Rows() == kept.Rows()
    {
      chunks, embeddings, channels := kept.chunks, kept.embeddings, kept.channels;
      timestamps, sessions, tags := kept.timestamps, kept.sessions, kept.tags;
      tombstones, norms, weights := kept.tombstones, kept.norms, kept.weights;
    }

    /** Pushes row `i` onto every array of `kept`, recomputing its norm. */
    method CopyRow(kept: MemoryCache, i: nat)
      requires Valid() && kept.Valid() && kept != this && kept.norm == norm
      requires i < |chunks| && tombstones[i] == 0
      modifies kept
      ensures kept.Valid() && kept.Rows() == old(kept.Rows()) + [RowAt(i)]
    {
      kept.chunks, kept.embeddings := kept.chunks + [chunks[i]], kept.embeddings + [embeddings[i]];
      kept.channels, kept.timestamps := kept.channels + [channels[i]], kept.timestamps + [timestamps[i]];
      kept.sessions, kept.tags := kept.sessions + [sessions[i]], kept.tags + [tags[i]];
      kept.tombstones, kept.norms := kept.tombstones + [0], kept.norms + [norm(embeddings[i])];
      kept.weights := kept.weights + [weights[i]];
    }

    method TombstoneFraction() returns (share: real)
      requires Valid()
      ensures share == TombstoneShare(Rows())
    {
      if chunks == [] {
        return 0.0;
      }
      var count := 0;
      ghost var rows := Rows();
      for i := 0 to |tombstones|
        invariant count == Tombstoned(rows[..i])
      {
        assert rows[..i + 1][..i] == rows[..i] && rows[i] == RowAt(i);
        if tombstones[i] == 1 {
          count := count + 1;
        }
      }
      assert rows[..|rows|] == rows;
      share := count as real / |chunks| as real;
    }

    method FlatEmbeddings() returns (flat: Vector)
      requires Valid()
      ensures flat == Flattened(Rows())
    {
      flat := [];
      ghost var rows := Rows();
      for i := 0 to |embeddings|
        invariant flat == Flattened(rows[..i])
      {
        assert rows[..i + 1] == rows[..i] + [RowAt(i)];
        CompactedSnoc(rows[..i], RowAt(i));
        flat := flat + embeddings[i];
      }
      assert rows[..|rows|] == rows;
    }
  }

  lemma EmptyCompacts()
    ensures Compacted([]) == [] && IndexMap([]) == [] && Flattened([]) == []
  {
  }
}
