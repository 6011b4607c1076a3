/** Reading leaves back: a leaf gives every field of its record, under the field's own name. */
module LeafReader {
  import opened Wrappers
  import opened Hex
  import opened Leaves
  import opened StoreLeaves

  datatype Shape = NumberShape(width: nat) | StringShape | FloatsShape

  function ShapeOf(f: Field): Shape {
    match f
    case Number(width, _) => NumberShape(width)
    case String(_) => StringShape
    case Floats(_) => FloatsShape
  }

  lemma {:induction false} ValueBound(bytes: seq<Byte>)
    ensures Value(bytes) < Capacity(|bytes|)
  {
    if bytes != [] {
      ValueBound(bytes[1..]);
    }
  }

  function ReadWord(bytes: seq<Byte>): Word32
    requires |bytes| == 4
  {
    ValueBound(bytes);
    Capacities();
    Value(bytes)
  }

  function ReadFloats(bytes: seq<Byte>): seq<Word32>
    requires |bytes| % 4 == 0
  {
    if bytes == [] then [] else [ReadWord(bytes[..4])] + ReadFloats(bytes[4..])
  }

  /** The field of this shape at the front, and what follows it. */
  function ReadField(shape: Shape, bytes: seq<Byte>): Option<(Field, seq<Byte>)> {
    match shape
    case NumberShape(width) =>
      if |bytes| < width then None else Some((Number(width, Value(bytes[..width])), bytes[width..]))
    case StringShape =>
      if |bytes| < 8 || |bytes| - 8 < Value(bytes[..8]) then None
      else var n := Value(bytes[..8]); Some((String(bytes[8..8 + n]), bytes[8 + n..]))
    case FloatsShape =>
      if |bytes| < 8 || |bytes| - 8 < 4 * Value(bytes[..8]) then None
      else var n := 4 * Value(bytes[..8]); Some((Floats(ReadFloats(bytes[8..8 + n])), bytes[8 + n..]))
  }

  function ReadFields(shapes: seq<Shape>, bytes: seq<Byte>): Option<seq<Field>> {
    if shapes == [] then (if bytes == [] then Some([]) else None)
    else
      var first := ReadField(shapes[0], bytes);
      if first.None? then None
      else
        var rest := ReadFields(shapes[1..], first.value.1);
        if rest.None? then None else Some([first.value.0] + rest.value)
  }

  // ---- Reading undoes writing --------------------------------------------------------------

  lemma {:induction false} FloatsReadBack(words: seq<Word32>)
    ensures |FloatBytes(words)| == 4 * |words| && ReadFloats(FloatBytes(words)) == words
  {
    hide LittleEndian, Value, Capacity;
    FloatBytesSize(words);
    if words != [] {
      Capacities();
      LittleEndianValue(words[0], 4);
      FloatsReadBack(words[1..]);
      var bytes := FloatBytes(words);
      assert bytes[..4] == LittleEndian(words[0], 4) && bytes[4..] == FloatBytes(words[1..]);
      assert words == [words[0]] + words[1..];
    }
  }

  lemma CountedReadBack(n: nat, body: seq<Byte>, rest: seq<Byte>)
    requires n < TWO_64
    ensures var bytes := LittleEndian(n, 8) + body + rest;
      Value(bytes[..8]) == n && bytes[8..8 + |body|] == body && bytes[8 + |body|..] == rest
  {
    hide LittleEndian, Value, Capacity;
    Capacities();
    LittleEndianValue(n, 8);
    var bytes := LittleEndian(n, 8) + body + rest;
    assert bytes[..8] == LittleEndian(n, 8);
  }

  lemma FieldReadsBack(f: Field, rest: seq<Byte>)
    requires Fits(f)
    ensures ReadField(ShapeOf(f), FieldBytes(f) + rest) == Some((f, rest))
  {
    hide LittleEndian, Value, Capacity, FloatBytes, ReadFloats;
    var bytes := FieldBytes(f) + rest;
    match f
    case Number(width, value) =>
      LittleEndianValue(value, width);
      assert bytes[..width] == LittleEndian(value, width) && bytes[width..] == rest;
    case String(text) => CountedReadBack(|text|, text, rest);
    case Floats(words) =>
      FloatsReadBack(words);
      CountedReadBack(|words|, FloatBytes(words), rest);
  }

  function Shapes(fields: seq<Field>): seq<Shape> {
    seq(|fields|, i requires 0 <= i < |fields| => ShapeOf(fields[i]))
  }

  lemma {:induction false} FieldsReadBack(fields: seq<Field>)
    requires forall i :: 0 <= i < |fields| ==> Fits(fields[i])
    ensures ReadFields(Shapes(fields), FieldsBytes(fields)) == Some(fields)
  {
    hide FieldBytes, ReadField, Fits, ShapeOf;
    if fields != [] {
      FieldReadsBack(fields[0], FieldsBytes(fields[1..]));
      FieldsReadBack(fields[1..]);
      assert Shapes(fields)[0] == ShapeOf(fields[0]) && Shapes(fields)[1..] == Shapes(fields[1..]);
      assert fields == [fields[0]] + fields[1..];
    }
  }

  // ---- Records by the names of their fields ---------------------------------------------------

  datatype Item =
    | MemoryItem(chunk: Text, embedding: seq<Word32>, channel: Text, timestamp: nat, session: Text, tags: Text,
                 tombstone: nat, norm: nat, weight: nat)
    | SessionItem(id: Text, start: nat, end: nat, channel: Text, timestamp: nat, summary: Text)
    | EntityItem(entity: nat, name: Text, kind: Text, embeddingIdx: nat)
    | RelationItem(source: nat, target: nat, name: Text, strength: nat, timestamp: nat)
    | AliasItem(alias: Text, entity: nat)

  const N1 := NumberShape(1)
  const N4 := NumberShape(4)
  const N8 := NumberShape(8)

  function Layout(tag: Byte): Option<seq<Shape>> {
    if tag == 'M' as int then Some([StringShape, FloatsShape, StringShape, N8, StringShape, StringShape, N1, N4, N4])
    else if tag == 'S' as int then Some([StringShape, N8, N8, StringShape, N8, StringShape])
    else if tag == 'E' as int then Some([N8, StringShape, StringShape, N8])
    else if tag == 'R' as int then Some([N8, N8, StringShape, N4, N8])
    else if tag == 'A' as int then Some([StringShape, N8])
    else None
  }

  ghost predicate Reads(leaf: Leaf, item: Item) {
    && leaf != [] && Layout(leaf[0]).Some?
    && match item
       case MemoryItem(chunk, embedding, channel, timestamp, session, tags, tombstone, norm, weight) =>
         leaf[0] == 'M' as int && ReadFields(Layout(leaf[0]).value, leaf[1..]) == Some(
           [String(chunk), Floats(embedding), String(channel), Number(8, timestamp), String(session), String(tags),
            Number(1, tombstone), Number(4, norm), Number(4, weight)])
       case SessionItem(id, start, end, channel, timestamp, summary) =>
         leaf[0] == 'S' as int && ReadFields(Layout(leaf[0]).value, leaf[1..]) == Some(
           [String(id), Number(8, start), Number(8, end), String(channel), Number(8, timestamp), String(summary)])
       case EntityItem(entity, name, kind, embeddingIdx) =>
         leaf[0] == 'E' as int && ReadFields(Layout(leaf[0]).value, leaf[1..]) == Some(
           [Number(8, entity), String(name), String(kind), Number(8, embeddingIdx)])
       case RelationItem(source, target, name, strength, timestamp) =>
         leaf[0] == 'R' as int && ReadFields(Layout(leaf[0]).value, leaf[1..]) == Some(
           [Number(8, source), Number(8, target), String(name), Number(4, strength), Number(8, timestamp)])
       case AliasItem(alias, entity) =>
         leaf[0] == 'A' as int && ReadFields(Layout(leaf[0]).value, leaf[1..]) == Some(
           [String(alias), Number(8, entity)])
  }

  /** A leaf reads as one record only. */
  lemma ReadsOnce(leaf: Leaf, a: Item, b: Item)
    requires Reads(leaf, a) && Reads(leaf, b)
    ensures a == b
  {
    hide ReadFields, Layout;
  }

  lemma LeafReadsBack(tag: Byte, fields: seq<Field>)
    requires forall i :: 0 <= i < |fields| ==> Fits(fields[i])
    requires Layout(tag) == Some(Shapes(fields))
    ensures TaggedLeaf(tag, fields)[0] == tag
    ensures ReadFields(Layout(tag).value, TaggedLeaf(tag, fields)[1..]) == Some(fields)
  {
    hide ReadFields, FieldsBytes, Layout, Fits;
    FieldsReadBack(fields);
    assert TaggedLeaf(tag, fields)[1..] == FieldsBytes(fields);
  }

  /** The leaf of memory row `i` gives back the row, with the defaults where an array is short. */
  lemma MemoryReadsBack(c: Contents, i: nat)
    requires Sized(Completed(c)) && i < |c.memory.chunks|
    ensures |MemoryLeaves(c)| == |c.memory.chunks|
    ensures var m := c.memory;
      Reads(MemoryLeaves(c)[i],
            MemoryItem(m.chunks[i], Get(m.embeddings, i, []), Get(m.channels, i, []), Get(m.timestamps, i, 0),
                       Get(m.sessionIds, i, []), Get(m.tags, i, []), Get(m.tombstones, i, 0), Get(m.norms, i, 0),
                       Get(m.weights, i, ONE)))
  {
    hide ReadFields, Capacity, FieldsBytes;
    var fields, d := MemoryFields(c.memory, i), Completed(c).memory;
    assert d.chunks[i] == c.memory.chunks[i] && d.embeddings[i] == Get(c.memory.embeddings, i, []);
    assert d.channels[i] == Get(c.memory.channels, i, []) && d.sessionIds[i] == Get(c.memory.sessionIds, i, []);
    assert d.tags[i] == Get(c.memory.tags, i, []);
    assert ShortText(d.chunks[i]) && ShortText(d.channels[i]) && ShortText(d.sessionIds[i]) && ShortText(d.tags[i]);
    Capacities();
    assert Layout(TAG_MEMORY).value == Shapes(fields);
    LeafReadsBack(TAG_MEMORY, fields);
  }

  lemma SessionReadsBack(c: Contents, i: nat)
    requires Sized(Completed(c)) && i < |c.sessions|
    ensures |SessionLeaves(c)| == |c.sessions|
    ensures var s := c.sessions[i];
      Reads(SessionLeaves(c)[i], SessionItem(s.id, s.start, s.end, s.channel, s.timestamp, Get(c.summaries, i, [])))
  {
    hide ReadFields, Capacity, FieldsBytes;
    var fields := SessionFields(c.sessions[i], Get(c.summaries, i, []));
    assert Completed(c).summaries[i] == Get(c.summaries, i, []) && ShortText(Completed(c).summaries[i]);
    Capacities();
    assert Layout(TAG_SESSION).value == Shapes(fields);
    LeafReadsBack(TAG_SESSION, fields);
  }

  lemma EntityReadsBack(c: Contents, i: nat)
    requires Sized(Completed(c)) && i < |c.entities|
    ensures |EntityLeaves(c)| == |c.entities|
    ensures var e := c.entities[i];
      Reads(EntityLeaves(c)[i], EntityItem(e.id, e.name, e.kind, e.embedding))
  {
    hide ReadFields, Capacity, FieldsBytes;
    var fields := EntityFields(c.entities[i]);
    Capacities();
    assert Layout(TAG_ENTITY).value == Shapes(fields);
    LeafReadsBack(TAG_ENTITY, fields);
  }

  lemma RelationReadsBack(c: Contents, i: nat)
    requires Sized(Completed(c)) && i < |c.relations|
    ensures |RelationLeaves(c)| == |c.relations|
    ensures var r := c.relations[i];
      Reads(RelationLeaves(c)[i], RelationItem(r.source, r.target, r.name, r.weight, r.timestamp))
  {
    hide ReadFields, Capacity, FieldsBytes;
    var fields := RelationFields(c.relations[i]);
    Capacities();
    assert Layout(TAG_RELATION).value == Shapes(fields);
    LeafReadsBack(TAG_RELATION, fields);
  }

  lemma AliasReadsBack(c: Contents, i: nat)
    requires Sized(Completed(c)) && i < |c.aliases|
    ensures |AliasLeaves(c)| == |c.aliases|
    ensures Reads(AliasLeaves(c)[i], AliasItem(c.aliases[i], Get(c.aliasIds, i, 0)))
  {
    hide ReadFields, Capacity, FieldsBytes;
    var fields := AliasFields(c.aliases[i], Get(c.aliasIds, i, 0));
    assert ShortText(Completed(c).aliases[i]);
    Capacities();
    assert Layout(TAG_ALIAS).value == Shapes(fields);
    LeafReadsBack(TAG_ALIAS, fields);
  }
}
