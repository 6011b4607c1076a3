/** The leaf list of a whole store, and what it pins down. */
module StoreLeaves {
  import opened Wrappers
  import opened Hex
  import opened Leaves

  datatype Memory = Memory(chunks: seq<Text>, embeddings: seq<seq<Word32>>, channels: seq<Text>,
                           timestamps: seq<Word64>, sessionIds: seq<Text>, tags: seq<Text>,
                           tombstones: seq<Byte>, norms: seq<Word32>, weights: seq<Word32>)

  datatype Session = Session(id: Text, start: Word64, end: Word64, channel: Text, timestamp: Word64)

  datatype Entity = Entity(id: Word64, name: Text, kind: Text, embedding: Word64)

  datatype Relation = Relation(source: Word64, target: Word64, name: Text, weight: Word32, timestamp: Word64)

  datatype Contents = Contents(memory: Memory, sessions: seq<Session>, summaries: seq<Text>,
                               entities: seq<Entity>, relations: seq<Relation>,
                               aliases: seq<Text>, aliasIds: seq<Word64>)

  const TAG_MEMORY: Byte := 'M' as int
  const TAG_SESSION: Byte := 'S' as int
  const TAG_ENTITY: Byte := 'E' as int
  const TAG_RELATION: Byte := 'R' as int
  const TAG_ALIAS: Byte := 'A' as int

  type Leaf = seq<Byte>

  /** Element `i`, or the default past the end. */
  function Get<T>(s: seq<T>, i: nat, default: T): T { if i < |s| then s[i] else default }

  function MemoryFields(m: Memory, i: nat): seq<Field>
    requires i < |m.chunks|
  {
    [String(m.chunks[i]), Floats(Get(m.embeddings, i, [])), String(Get(m.channels, i, [])),
     Number(8, Get(m.timestamps, i, 0)), String(Get(m.sessionIds, i, [])), String(Get(m.tags, i, [])),
     Number(1, Get(m.tombstones, i, 0)), Number(4, Get(m.norms, i, 0)), Number(4, Get(m.weights, i, ONE))]
  }

  function SessionFields(s: Session, summary: Text): seq<Field> {
    [String(s.id), Number(8, s.start), Number(8, s.end), String(s.channel), Number(8, s.timestamp), String(summary)]
  }

  function EntityFields(e: Entity): seq<Field> {
    [Number(8, e.id), String(e.name), String(e.kind), Number(8, e.embedding)]
  }

  function RelationFields(r: Relation): seq<Field> {
    [Number(8, r.source), Number(8, r.target), String(r.name), Number(4, r.weight), Number(8, r.timestamp)]
  }

  function AliasFields(alias: Text, id: Word64): seq<Field> { [String(alias), Number(8, id)] }

  function TaggedLeaf(tag: Byte, fields: seq<Field>): Leaf { [tag] + FieldsBytes(fields) }

  function MemoryRecords(m: Memory): seq<seq<Field>> {
    seq(|m.chunks|, i requires 0 <= i < |m.chunks| => MemoryFields(m, i))
  }

  function SessionRecords(sessions: seq<Session>, summaries: seq<Text>): seq<seq<Field>> {
    seq(|sessions|, i requires 0 <= i < |sessions| => SessionFields(sessions[i], Get(summaries, i, [])))
  }

  function EntityRecords(entities: seq<Entity>): seq<seq<Field>> {
    seq(|entities|, i requires 0 <= i < |entities| => EntityFields(entities[i]))
  }

  function RelationRecords(relations: seq<Relation>): seq<seq<Field>> {
    seq(|relations|, i requires 0 <= i < |relations| => RelationFields(relations[i]))
  }

  function AliasRecords(aliases: seq<Text>, ids: seq<Word64>): seq<seq<Field>> {
    seq(|aliases|, i requires 0 <= i < |aliases| => AliasFields(aliases[i], Get(ids, i, 0)))
  }

  function Tagged(tag: Byte, records: seq<seq<Field>>): seq<Leaf> {
    seq(|records|, i requires 0 <= i < |records| => TaggedLeaf(tag, records[i]))
  }

  function MemoryLeaves(c: Contents): seq<Leaf> { Tagged(TAG_MEMORY, MemoryRecords(c.memory)) }

  function SessionLeaves(c: Contents): seq<Leaf> { Tagged(TAG_SESSION, SessionRecords(c.sessions, c.summaries)) }

  function EntityLeaves(c: Contents): seq<Leaf> { Tagged(TAG_ENTITY, EntityRecords(c.entities)) }

  function RelationLeaves(c: Contents): seq<Leaf> { Tagged(TAG_RELATION, RelationRecords(c.relations)) }

  function AliasLeaves(c: Contents): seq<Leaf> { Tagged(TAG_ALIAS, AliasRecords(c.aliases, c.aliasIds)) }

  /** Memory, sessions, entities, relations, aliases, in this order. */
  function LeafList(c: Contents): seq<Leaf> {
    MemoryLeaves(c) + (SessionLeaves(c) + (EntityLeaves(c) + (RelationLeaves(c) + AliasLeaves(c))))
  }

  // ---- The loops that build the leaves ------------------------------------------------------------

  lemma Regroup(a: seq<Byte>, b: seq<Byte>, c: seq<Byte>)
    ensures a + (b + c) == a + b + c
  {
  }

  lemma {:induction false} PushField(fields: seq<Field>, f: Field)
    ensures FieldsBytes(fields + [f]) == FieldsBytes(fields) + FieldBytes(f)
  {
    hide FieldBytes;
    if fields == [] {
      assert [f][1..] == [] && fields + [f] == [f];
    } else {
      PushField(fields[1..], f);
      assert (fields + [f])[1..] == fields[1..] + [f];
      Regroup(FieldBytes(fields[0]), FieldsBytes(fields[1..]), FieldBytes(f));
    }
  }

  lemma {:induction false} PushFloat(words: seq<Word32>, w: Word32)
    ensures FloatBytes(words + [w]) == FloatBytes(words) + LittleEndian(w, 4)
  {
    hide LittleEndian;
    if words == [] {
      assert [w][1..] == [] && words + [w] == [w];
    } else {
      PushFloat(words[1..], w);
      assert (words + [w])[1..] == words[1..] + [w];
      Regroup(LittleEndian(words[0], 4), FloatBytes(words[1..]), LittleEndian(w, 4));
    }
  }

  method PushFloats(buf: Leaf, words: seq<Word32>) returns (out: Leaf)
    ensures out == buf + FieldBytes(Floats(words))
  {
    hide LittleEndian, FloatBytes;
    FloatBytesSize([]);
    out := buf + LittleEndian(|words|, 8);
    ghost var head := out;
    for i := 0 to |words|
      invariant out == head + FloatBytes(words[..i])
    {
      assert words[..i + 1] == words[..i] + [words[i]];
      PushFloat(words[..i], words[i]);
      out := out + LittleEndian(words[i], 4);
    }
    assert words[..|words|] == words;
  }

  method EncodeLeaf(tag: Byte, fields: seq<Field>) returns (buf: Leaf)
    ensures buf == TaggedLeaf(tag, fields)
  {
    hide FieldsBytes, LittleEndian, FloatBytes;
    NoFields();
    buf := [tag];
    for i := 0 to |fields|
      invariant buf == TaggedLeaf(tag, fields[..i])
    {
      assert fields[..i + 1] == fields[..i] + [fields[i]];
      PushField(fields[..i], fields[i]);
      Regroup([tag], FieldsBytes(fields[..i]), FieldBytes(fields[i]));
      match fields[i]
      case Number(width, value) => buf := buf + LittleEndian(value, width);
      case String(text) => buf := buf + Prefixed(text);
      case Floats(words) => buf := PushFloats(buf, words);
    }
    assert fields[..|fields|] == fields;
  }

  lemma NoFields()
    ensures FieldsBytes([]) == []
  {
  }

  method EncodeSection(tag: Byte, records: seq<seq<Field>>) returns (leaves: seq<Leaf>)
    ensures leaves == Tagged(tag, records)
  {
    hide TaggedLeaf;
    leaves := [];
    for i := 0 to |records|
      invariant |leaves| == i && forall k :: 0 <= k < i ==> leaves[k] == TaggedLeaf(tag, records[k])
    {
      var buf := EncodeLeaf(tag, records[i]);
      leaves := leaves + [buf];
    }
  }

  /** Nothing to protect gives no leaves at all. */
  method AllLeaves(c: Contents) returns (leaves: Option<seq<Leaf>>)
    ensures leaves == if LeafList(c) == [] then None else Some(LeafList(c))
  {
    hide Tagged, MemoryRecords, SessionRecords, EntityRecords, RelationRecords, AliasRecords;
    var memory := EncodeSection(TAG_MEMORY, MemoryRecords(c.memory));
    var sessions := EncodeSection(TAG_SESSION, SessionRecords(c.sessions, c.summaries));
    var entities := EncodeSection(TAG_ENTITY, EntityRecords(c.entities));
    var relations := EncodeSection(TAG_RELATION, RelationRecords(c.relations));
    var aliases := EncodeSection(TAG_ALIAS, AliasRecords(c.aliases, c.aliasIds));
    var out := memory + sessions + entities + relations + aliases;
    assert out == memory + (sessions + (entities + (relations + aliases)));
    leaves := if out == [] then None else Some(out);
  }

  // ---- Sections are told apart by their tags -------------------------------------------------------

  ghost predicate AllHave(leaves: seq<Leaf>, tags: set<Byte>) {
    forall i :: 0 <= i < |leaves| ==> leaves[i] != [] && leaves[i][0] in tags
  }

  lemma SplitByTag(x: seq<Leaf>, p: seq<Leaf>, y: seq<Leaf>, q: seq<Leaf>, tag: Byte, others: set<Byte>)
    requires x + p == y + q && AllHave(x, {tag}) && AllHave(y, {tag}) && tag !in others
    requires AllHave(p, others) && AllHave(q, others)
    ensures x == y && p == q
  {
    if |x| < |x + p| {
      TagAt(x, p, tag, others, |x|);
      TagAt(y, q, tag, others, |x|);
    }
    if |y| < |y + q| {
      TagAt(x, p, tag, others, |y|);
      TagAt(y, q, tag, others, |y|);
    }
    assert x == (x + p)[..|x|] && y == (y + q)[..|y|];
    assert p == (x + p)[|x|..] && q == (y + q)[|y|..];
  }

  lemma TagAt(x: seq<Leaf>, p: seq<Leaf>, tag: Byte, others: set<Byte>, k: nat)
    requires AllHave(x, {tag}) && AllHave(p, others) && tag !in others && k < |x + p|
    ensures (x + p)[k] != [] && ((x + p)[k][0] == tag <==> k < |x|)
  {
  }

  lemma TaggedHave(tag: Byte, records: seq<seq<Field>>, tags: set<Byte>)
    requires tag in tags
    ensures AllHave(Tagged(tag, records), tags)
  {
  }

  ghost predicate AllComparable(a: seq<seq<Field>>, b: seq<seq<Field>>) {
    forall i :: 0 <= i < |a| && i < |b| ==> Comparable(a[i], b[i])
  }

  lemma TaggedInjective(tag: Byte, a: seq<seq<Field>>, b: seq<seq<Field>>)
    requires AllComparable(a, b) && Tagged(tag, a) == Tagged(tag, b)
    ensures a == b
  {
    hide FieldsBytes, Comparable;
    assert |a| == |Tagged(tag, a)| == |b|;
    forall i | 0 <= i < |a|
      ensures a[i] == b[i]
    {
      assert Tagged(tag, a)[i] == Tagged(tag, b)[i];
      assert TaggedLeaf(tag, a[i])[1..] == FieldsBytes(a[i]) && TaggedLeaf(tag, b[i])[1..] == FieldsBytes(b[i]);
      FieldsInjective(a[i], b[i]);
    }
  }

  /** Equal leaf lists have equal leaves section by section. */
  lemma SectionsAgree(a: Contents, b: Contents)
    requires LeafList(a) == LeafList(b)
    ensures MemoryLeaves(a) == MemoryLeaves(b)
    ensures SessionLeaves(a) == SessionLeaves(b)
    ensures EntityLeaves(a) == EntityLeaves(b)
    ensures RelationLeaves(a) == RelationLeaves(b)
    ensures AliasLeaves(a) == AliasLeaves(b)
  {
    hide MemoryLeaves, SessionLeaves, EntityLeaves, RelationLeaves, AliasLeaves, AllHave;
    var m, s, e, r, l := MemoryLeaves(a), SessionLeaves(a), EntityLeaves(a), RelationLeaves(a), AliasLeaves(a);
    var m', s', e', r', l' := MemoryLeaves(b), SessionLeaves(b), EntityLeaves(b), RelationLeaves(b), AliasLeaves(b);
    Tails(a);
    Tails(b);
    SplitByTag(m, s + (e + (r + l)), m', s' + (e' + (r' + l')), TAG_MEMORY,
               {TAG_SESSION, TAG_ENTITY, TAG_RELATION, TAG_ALIAS});
    SplitByTag(s, e + (r + l), s', e' + (r' + l'), TAG_SESSION, {TAG_ENTITY, TAG_RELATION, TAG_ALIAS});
    SplitByTag(e, r + l, e', r' + l', TAG_ENTITY, {TAG_RELATION, TAG_ALIAS});
    SplitByTag(r, l, r', l', TAG_RELATION, {TAG_ALIAS});
  }

  lemma HaveConcat(x: seq<Leaf>, y: seq<Leaf>, tags: set<Byte>)
    requires AllHave(x, tags) && AllHave(y, tags)
    ensures AllHave(x + y, tags)
  {
  }

  /** Which tags occur in each tail of the list. */
  lemma Tails(c: Contents)
    ensures var m, s, e, r, l := MemoryLeaves(c), SessionLeaves(c), EntityLeaves(c), RelationLeaves(c), AliasLeaves(c);
      && AllHave(m, {TAG_MEMORY}) && AllHave(s, {TAG_SESSION}) && AllHave(e, {TAG_ENTITY}) && AllHave(r, {TAG_RELATION})
      && AllHave(l, {TAG_ALIAS}) && AllHave(r + l, {TAG_RELATION, TAG_ALIAS})
      && AllHave(e + (r + l), {TAG_ENTITY, TAG_RELATION, TAG_ALIAS})
      && AllHave(s + (e + (r + l)), {TAG_SESSION, TAG_ENTITY, TAG_RELATION, TAG_ALIAS})
  {
    hide Tagged, MemoryRecords, SessionRecords, EntityRecords, RelationRecords, AliasRecords, AllHave;
    var M, S, E, R, L := MemoryRecords(c.memory), SessionRecords(c.sessions, c.summaries), EntityRecords(c.entities),
      RelationRecords(c.relations), AliasRecords(c.aliases, c.aliasIds);
    var s, e, r, l := Tagged(TAG_SESSION, S), Tagged(TAG_ENTITY, E), Tagged(TAG_RELATION, R), Tagged(TAG_ALIAS, L);
    TaggedHave(TAG_MEMORY, M, {TAG_MEMORY});
    TaggedHave(TAG_SESSION, S, {TAG_SESSION});
    TaggedHave(TAG_ENTITY, E, {TAG_ENTITY});
    TaggedHave(TAG_RELATION, R, {TAG_RELATION});
    TaggedHave(TAG_ALIAS, L, {TAG_ALIAS});
    var two, three := {TAG_RELATION, TAG_ALIAS}, {TAG_ENTITY, TAG_RELATION, TAG_ALIAS};
    var four := {TAG_SESSION, TAG_ENTITY, TAG_RELATION, TAG_ALIAS};
    Wider(r, {TAG_RELATION}, two);
    Wider(l, {TAG_ALIAS}, two);
    HaveConcat(r, l, two);
    Wider(e, {TAG_ENTITY}, three);
    Wider(r + l, two, three);
    HaveConcat(e, r + l, three);
    Wider(s, {TAG_SESSION}, four);
    Wider(e + (r + l), three, four);
    HaveConcat(s, e + (r + l), four);
  }

  lemma Wider(x: seq<Leaf>, tags: set<Byte>, more: set<Byte>)
    requires AllHave(x, tags) && tags <= more
    ensures AllHave(x, more)
  {
  }

  // ---- What the leaf list pins down -------------------------------------------------------------------

  /** The first `n` elements, defaults standing in for missing ones. */
  function Padded<T>(s: seq<T>, n: nat, default: T): (r: seq<T>)
    ensures |r| == n
  {
    seq(n, i requires 0 <= i < n => Get(s, i, default))
  }

  function CompletedMemory(m: Memory): Memory {
    var n := |m.chunks|;
    Memory(m.chunks, Padded(m.embeddings, n, []), Padded(m.channels, n, []), Padded(m.timestamps, n, 0),
           Padded(m.sessionIds, n, []), Padded(m.tags, n, []), Padded(m.tombstones, n, 0),
           Padded(m.norms, n, 0), Padded(m.weights, n, ONE))
  }

  /** The store with every array brought to full length. */
  function Completed(c: Contents): Contents {
    c.(memory := CompletedMemory(c.memory), summaries := Padded(c.summaries, |c.sessions|, []),
       aliasIds := Padded(c.aliasIds, |c.aliases|, 0))
  }

  ghost predicate FullMemory(m: Memory) {
    var n := |m.chunks|;
    && |m.embeddings| == n && |m.channels| == n && |m.timestamps| == n && |m.sessionIds| == n
    && |m.tags| == n && |m.tombstones| == n && |m.norms| == n && |m.weights| == n
  }

  /** Every array is as long as the one that drives it, as in every store the loader returns. */
  ghost predicate Full(c: Contents) {
    FullMemory(c.memory) && |c.summaries| == |c.sessions| && |c.aliasIds| == |c.aliases|
  }

  lemma PaddedFull<T>(s: seq<T>, n: nat, default: T)
    ensures Padded(s, n, default) == s <==> |s| == n
  {
  }

  lemma FullIffCompleted(c: Contents)
    ensures Full(c) <==> Completed(c) == c
    ensures Full(Completed(c))
  {
    hide Padded;
    var m := c.memory;
    var n := |m.chunks|;
    PaddedFull(m.embeddings, n, []);
    PaddedFull(m.channels, n, []);
    PaddedFull(m.timestamps, n, 0);
    PaddedFull(m.sessionIds, n, []);
    PaddedFull(m.tags, n, []);
    PaddedFull(m.tombstones, n, 0);
    PaddedFull(m.norms, n, 0);
    PaddedFull(m.weights, n, ONE);
    PaddedFull(c.summaries, |c.sessions|, []);
    PaddedFull(c.aliasIds, |c.aliases|, 0);
  }

  /** With no chunks the loader returns an empty memory and looks no further. Otherwise it refuses arrays of the
      wrong length, except that it computes the norms again and sets the weights to one. */
  function LoadMemory(m: Memory, norm: seq<Word32> -> Word32): Option<Memory> {
    var n := |m.chunks|;
    if n == 0 then
      Some(Memory([], [], [], [], [], [], [], [], []))
    else if |m.embeddings| != n || |m.channels| != n || |m.timestamps| != n || |m.sessionIds| != n
            || |m.tags| != n || |m.tombstones| != n then
      None
    else
      Some(m.(norms := if |m.norms| == n then m.norms else seq(n, i requires 0 <= i < n => norm(m.embeddings[i])),
              weights := if |m.weights| == n then m.weights else seq(n, _ => ONE)))
  }

  /** What the loader makes of a stored file, or None if it refuses it. */
  function LoadContents(c: Contents, norm: seq<Word32> -> Word32): Option<Contents> {
    var memory := LoadMemory(c.memory, norm);
    if memory.None? || (c.sessions != [] && |c.summaries| != |c.sessions|) || |c.aliasIds| != |c.aliases| then
      None
    else
      Some(c.(memory := memory.value, summaries := if c.sessions == [] then [] else c.summaries))
  }

  /** The full stores are exactly those the loader returns, and exactly those it returns unchanged. */
  lemma FullIffLoaded(c: Contents, norm: seq<Word32> -> Word32)
    ensures LoadContents(c, norm).Some? ==> Full(LoadContents(c, norm).value)
    ensures Full(c) <==> LoadContents(c, norm) == Some(c)
  {
    hide LoadMemory;
    MemoryFullIffLoaded(c.memory, norm);
  }

  lemma MemoryFullIffLoaded(m: Memory, norm: seq<Word32> -> Word32)
    ensures LoadMemory(m, norm).Some? ==> FullMemory(LoadMemory(m, norm).value)
    ensures FullMemory(m) <==> LoadMemory(m, norm) == Some(m)
  {
  }

  lemma MemoryRecordsCompleted(m: Memory)
    ensures MemoryRecords(CompletedMemory(m)) == MemoryRecords(m)
  {
    forall i | 0 <= i < |m.chunks|
      ensures MemoryFields(CompletedMemory(m), i) == MemoryFields(m, i)
    {
    }
  }

  /** The leaves see a store only through its completion: a missing trailing element and a present
      default one cannot be told apart. */
  lemma LeavesOfCompleted(c: Contents)
    ensures LeafList(Completed(c)) == LeafList(c)
  {
    hide Tagged, MemoryRecords, CompletedMemory;
    MemoryRecordsCompleted(c.memory);
    var d := Completed(c);
    assert SessionRecords(d.sessions, d.summaries) == SessionRecords(c.sessions, c.summaries);
    assert AliasRecords(d.aliases, d.aliasIds) == AliasRecords(c.aliases, c.aliasIds);
  }

  ghost predicate ShortText(t: Text) { |t| < TWO_64 }

  ghost predicate ShortTexts(texts: seq<Text>) { forall i :: 0 <= i < |texts| ==> ShortText(texts[i]) }

  /** Lengths fit the 64-bit prefixes, as those of anything in memory do. */
  ghost predicate Sized(c: Contents) {
    && ShortTexts(c.memory.chunks) && ShortTexts(c.memory.channels)
    && ShortTexts(c.memory.sessionIds) && ShortTexts(c.memory.tags)
    && (forall i :: 0 <= i < |c.memory.embeddings| ==> |c.memory.embeddings[i]| < TWO_64)
    && (forall i :: 0 <= i < |c.sessions| ==> ShortText(c.sessions[i].id) && ShortText(c.sessions[i].channel))
    && ShortTexts(c.summaries)
    && (forall i :: 0 <= i < |c.entities| ==> ShortText(c.entities[i].name) && ShortText(c.entities[i].kind))
    && (forall i :: 0 <= i < |c.relations| ==> ShortText(c.relations[i].name))
    && ShortTexts(c.aliases)
  }

  lemma MemoryAgrees(a: Contents, b: Contents)
    requires Full(a) && Full(b) && Sized(a) && Sized(b)
    requires MemoryLeaves(a) == MemoryLeaves(b)
    ensures a.memory == b.memory
  {
    hide Tagged, Capacity;
    var m, n := a.memory, b.memory;
    Capacities();
    forall i | 0 <= i < |MemoryRecords(m)| && i < |MemoryRecords(n)|
      ensures Comparable(MemoryRecords(m)[i], MemoryRecords(n)[i])
    {
      assert ShortText(m.chunks[i]) && ShortText(n.chunks[i]);
      assert ShortText(m.channels[i]) && ShortText(n.channels[i]);
      assert ShortText(m.sessionIds[i]) && ShortText(n.sessionIds[i]);
      assert ShortText(m.tags[i]) && ShortText(n.tags[i]);
    }
    TaggedInjective(TAG_MEMORY, MemoryRecords(m), MemoryRecords(n));
    MemoryDetermined(m, n);
  }

  lemma MemoryDetermined(m: Memory, n: Memory)
    requires FullMemory(m) && FullMemory(n) && MemoryRecords(m) == MemoryRecords(n)
    ensures m == n
  {
    assert |m.chunks| == |MemoryRecords(m)| == |n.chunks|;
    forall i | 0 <= i < |m.chunks|
      ensures m.chunks[i] == n.chunks[i] && m.embeddings[i] == n.embeddings[i] && m.channels[i] == n.channels[i]
      ensures m.timestamps[i] == n.timestamps[i] && m.sessionIds[i] == n.sessionIds[i] && m.tags[i] == n.tags[i]
      ensures m.tombstones[i] == n.tombstones[i] && m.norms[i] == n.norms[i] && m.weights[i] == n.weights[i]
    {
      MemoryRowDetermined(m, n, i);
    }
    assert m.chunks == n.chunks && m.embeddings == n.embeddings;
    assert m.channels == n.channels && m.timestamps == n.timestamps;
  }

  lemma MemoryRowDetermined(m: Memory, n: Memory, i: nat)
    requires FullMemory(m) && FullMemory(n) && i < |m.chunks| == |n.chunks| && MemoryRecords(m) == MemoryRecords(n)
    ensures m.chunks[i] == n.chunks[i] && m.embeddings[i] == n.embeddings[i] && m.channels[i] == n.channels[i]
    ensures m.timestamps[i] == n.timestamps[i] && m.sessionIds[i] == n.sessionIds[i] && m.tags[i] == n.tags[i]
    ensures m.tombstones[i] == n.tombstones[i] && m.norms[i] == n.norms[i] && m.weights[i] == n.weights[i]
  {
    var f, g := MemoryFields(m, i), MemoryFields(n, i);
    assert MemoryRecords(m)[i] == f && MemoryRecords(n)[i] == g;
    assert f[0] == g[0] && f[1] == g[1] && f[2] == g[2] && f[3] == g[3] && f[4] == g[4];
    assert f[5] == g[5] && f[6] == g[6] && f[7] == g[7] && f[8] == g[8];
  }

  lemma SessionsAgree(a: Contents, b: Contents)
    requires Full(a) && Full(b) && Sized(a) && Sized(b)
    requires SessionLeaves(a) == SessionLeaves(b)
    ensures a.sessions == b.sessions && a.summaries == b.summaries
  {
    hide Tagged, Capacity, FullMemory;
    Capacities();
    var x, y := SessionRecords(a.sessions, a.summaries), SessionRecords(b.sessions, b.summaries);
    forall i | 0 <= i < |x| && i < |y|
      ensures Comparable(x[i], y[i])
    {
      assert ShortText(a.summaries[i]) && ShortText(b.summaries[i]);
    }
    TaggedInjective(TAG_SESSION, x, y);
    assert |a.sessions| == |x| == |b.sessions|;
    forall i | 0 <= i < |x|
      ensures a.sessions[i] == b.sessions[i] && a.summaries[i] == b.summaries[i]
    {
      var f, g := x[i], y[i];
      assert f[0] == g[0] && f[1] == g[1] && f[2] == g[2] && f[3] == g[3] && f[4] == g[4] && f[5] == g[5];
    }
  }

  lemma EntitiesAgree(a: Contents, b: Contents)
    requires Sized(a) && Sized(b)
    requires EntityLeaves(a) == EntityLeaves(b)
    ensures a.entities == b.entities
  {
    hide Tagged, Capacity;
    Capacities();
    var x, y := EntityRecords(a.entities), EntityRecords(b.entities);
    assert AllComparable(x, y);
    TaggedInjective(TAG_ENTITY, x, y);
    assert |a.entities| == |x| == |b.entities|;
    forall i | 0 <= i < |x|
      ensures a.entities[i] == b.entities[i]
    {
      var f, g := x[i], y[i];
      assert f[0] == g[0] && f[1] == g[1] && f[2] == g[2] && f[3] == g[3];
    }
  }

  lemma RelationsAgree(a: Contents, b: Contents)
    requires Sized(a) && Sized(b)
    requires RelationLeaves(a) == RelationLeaves(b)
    ensures a.relations == b.relations
  {
    hide Tagged, Capacity;
    Capacities();
    var x, y := RelationRecords(a.relations), RelationRecords(b.relations);
    assert AllComparable(x, y);
    TaggedInjective(TAG_RELATION, x, y);
    assert |a.relations| == |x| == |b.relations|;
    forall i | 0 <= i < |x|
      ensures a.relations[i] == b.relations[i]
    {
      var f, g := x[i], y[i];
      assert f[0] == g[0] && f[1] == g[1] && f[2] == g[2] && f[3] == g[3] && f[4] == g[4];
    }
  }

  lemma AliasesAgree(a: Contents, b: Contents)
    requires Full(a) && Full(b) && Sized(a) && Sized(b)
    requires AliasLeaves(a) == AliasLeaves(b)
    ensures a.aliases == b.aliases && a.aliasIds == b.aliasIds
  {
    hide Tagged, Capacity, FullMemory;
    Capacities();
    var x, y := AliasRecords(a.aliases, a.aliasIds), AliasRecords(b.aliases, b.aliasIds);
    forall i | 0 <= i < |x| && i < |y|
      ensures Comparable(x[i], y[i])
    {
      assert ShortText(a.aliases[i]) && ShortText(b.aliases[i]);
    }
    TaggedInjective(TAG_ALIAS, x, y);
    assert |a.aliases| == |x| == |b.aliases|;
    forall i | 0 <= i < |x|
      ensures a.aliases[i] == b.aliases[i] && a.aliasIds[i] == b.aliasIds[i]
    {
      var f, g := x[i], y[i];
      assert f[0] == g[0] && f[1] == g[1];
    }
  }

  /** Two full stores with the same leaves are the same store, in all five sections. */
  lemma LeavesInjective(a: Contents, b: Contents)
    requires Full(a) && Full(b) && Sized(a) && Sized(b) && LeafList(a) == LeafList(b)
    ensures a == b
  {
    hide Full, Sized, Tagged, LeafList;
    SectionsAgree(a, b);
    MemoryAgrees(a, b);
    SessionsAgree(a, b);
    EntitiesAgree(a, b);
    RelationsAgree(a, b);
    AliasesAgree(a, b);
  }

  /** For any two files the loader does not refuse: the leaves of what it returns agree exactly when that does. */
  lemma LoadedLeavesEqualIff(a: Contents, b: Contents, norm: seq<Word32> -> Word32)
    requires LoadContents(a, norm).Some? && LoadContents(b, norm).Some?
    requires Sized(LoadContents(a, norm).value) && Sized(LoadContents(b, norm).value)
    ensures LeafList(LoadContents(a, norm).value) == LeafList(LoadContents(b, norm).value)
       <==> LoadContents(a, norm) == LoadContents(b, norm)
  {
    hide Full, Sized, LeafList, LoadContents;
    FullIffLoaded(a, norm);
    FullIffLoaded(b, norm);
    var x, y := LoadContents(a, norm).value, LoadContents(b, norm).value;
    if LeafList(x) == LeafList(y) {
      LeavesInjective(x, y);
    }
  }

  /** For any two stores: the same leaves exactly when they complete to the same store. */
  lemma LeavesEqualIff(a: Contents, b: Contents)
    requires Sized(Completed(a)) && Sized(Completed(b))
    ensures LeafList(a) == LeafList(b) <==> Completed(a) == Completed(b)
  {
    hide Full, Sized, LeafList, Completed;
    LeavesOfCompleted(a);
    LeavesOfCompleted(b);
    FullIffCompleted(a);
    FullIffCompleted(b);
    if LeafList(a) == LeafList(b) {
      LeavesInjective(Completed(a), Completed(b));
    }
  }

  /** Why the loader must check lengths: drop a trailing live tombstone and the leaves stay the same,
      although the loader now refuses the store. */
  lemma ShortTombstonesInvisible(c: Contents, n: nat, norm: seq<Word32> -> Word32)
    requires Full(c) && |c.memory.chunks| == n + 1 && c.memory.tombstones[n] == 0
    ensures var short := c.(memory := c.memory.(tombstones := c.memory.tombstones[..n]));
      !Full(short) && short != c && LeafList(short) == LeafList(c) && LoadContents(short, norm).None?
  {
    hide LeafList;
    var short := c.(memory := c.memory.(tombstones := c.memory.tombstones[..n]));
    assert Padded(short.memory.tombstones, n + 1, 0) == c.memory.tombstones;
    FullIffCompleted(c);
    LeavesOfCompleted(short);
    assert Completed(short) == Completed(c);
    LeavesOfCompleted(c);
  }
}
