/** The write-ahead log: framing, replay and what a reader makes of an interrupted write. */
module WriteAheadLog {
  import opened Cache

  datatype Error = Io | Integrity | Schema | NotFound

  datatype Result<T> = Ok(value: T) | Err(error: Error)

  datatype LogEntry = Save(entry: Entry) | Tombstone(index: nat) | ActivationUpdate

  /** One completed write to the log: an entry of some encoded length, or the 32-byte chain hash
      that follows it. A chain hash commits to every entry up to its own. */
  datatype Piece = Body(entry: LogEntry, bytes: nat) | Trailer(chain: seq<LogEntry>)

  /** A missing file, a file cut off inside its 9-byte header, or a header's count and the pieces after it. */
  datatype LogFile = NoFile | Torn(bytes: nat) | Log(count: nat, pieces: seq<Piece>)

  const GROUP_COMMIT_SIZE := 8

  function Bytes(pieces: seq<Piece>): nat {
    if pieces == [] then 0 else (if pieces[0].Body? then pieces[0].bytes else 32) + Bytes(pieces[1..])
  }

  /** Reads entries until the pieces run out; an entry without a full trailer is dropped, an
      entry whose trailer is not its own chain hash is refused. */
  function Parse(pieces: seq<Piece>, done: seq<LogEntry>): Result<seq<LogEntry>>
    decreases |pieces|
  {
    if pieces == [] then Ok(done)
    else if pieces[0].Trailer? then Err(Integrity)
    else
      var next := done + [pieces[0].entry];
      if Bytes(pieces[1..]) < 32 then Ok(done)
      else if pieces[1..] != [] && pieces[1] == Trailer(next) then Parse(pieces[2..], next)
      else Err(Integrity)
  }

  /** Every entry is followed by its own chain hash. */
  ghost predicate Framed(pieces: seq<Piece>, entries: seq<LogEntry>) {
    && |pieces| == 2 * |entries|
    && (forall i :: 0 <= i < |entries| ==> pieces[2 * i].Body? && pieces[2 * i].entry == entries[i])
    && (forall i :: 0 <= i < |entries| ==> pieces[2 * i + 1] == Trailer(entries[..i + 1]))
  }

  lemma {:induction false} ParseFramed(pieces: seq<Piece>, entries: seq<LogEntry>, tail: seq<Piece>, k: nat)
    requires Framed(pieces, entries) && k <= |entries|
    ensures Parse(pieces[2 * k..] + tail, entries[..k]) == Parse(tail, entries)
    decreases |entries| - k
  {
    if k == |entries| {
      assert pieces[2 * k..] + tail == tail && entries[..k] == entries;
    } else {
      var rest := pieces[2 * k..] + tail;
      assert rest[0] == pieces[2 * k] && rest[1] == pieces[2 * k + 1];
      assert entries[..k] + [entries[k]] == entries[..k + 1];
      assert rest[1..][0] == rest[1] && Bytes(rest[1..]) >= 32;
      assert rest[2..] == pieces[2 * (k + 1)..] + tail;
      ParseFramed(pieces, entries, tail, k + 1);
    }
  }

  /** A framed log reads back whole, and so does one cut off after an entry's body. */
  lemma FramedReads(pieces: seq<Piece>, entries: seq<LogEntry>)
    requires Framed(pieces, entries)
    ensures Parse(pieces, []) == Ok(entries)
    ensures forall e, n :: Parse(pieces + [Body(e, n)], []) == Ok(entries)
  {
    assert pieces[0..] + [] == pieces && entries[..0] == [];
    ParseFramed(pieces, entries, [], 0);
    forall e, n
      ensures Parse(pieces + [Body(e, n)], []) == Ok(entries)
    {
      assert pieces[0..] + [Body(e, n)] == pieces + [Body(e, n)];
      ParseFramed(pieces, entries, [Body(e, n)], 0);
    }
  }

  lemma FramedAppend(pieces: seq<Piece>, entries: seq<LogEntry>, e: LogEntry, n: nat)
    requires Framed(pieces, entries)
    ensures Framed(pieces + [Body(e, n)] + [Trailer(entries + [e])], entries + [e])
  {
    var longer, grown := pieces + [Body(e, n)] + [Trailer(entries + [e])], entries + [e];
    forall i | 0 <= i < |grown|
      ensures longer[2 * i].Body? && longer[2 * i].entry == grown[i]
      ensures longer[2 * i + 1] == Trailer(grown[..i + 1])
    {
      if i < |entries| {
        assert grown[..i + 1] == entries[..i + 1];
      } else {
        assert grown[..i + 1] == grown;
      }
    }
  }

  /** A log an interrupted writer can leave: framed, or framed up to one last bare body. */
  ghost predicate Left(pieces: seq<Piece>, entries: seq<LogEntry>) {
    || Framed(pieces, entries)
    || (pieces != [] && pieces[|pieces| - 1].Body? && Framed(pieces[..|pieces| - 1], entries))
  }

  lemma LeftReads(pieces: seq<Piece>, entries: seq<LogEntry>)
    requires Left(pieces, entries)
    ensures Parse(pieces, []) == Ok(entries)
  {
    hide Framed, Parse;
    if Framed(pieces, entries) {
      FramedReads(pieces, entries);
    } else {
      var before, bare := pieces[..|pieces| - 1], pieces[|pieces| - 1];
      FramedReads(before, entries);
      assert pieces == before + [Body(bare.entry, bare.bytes)];
    }
  }

  lemma FramedIsLeft(pieces: seq<Piece>, entries: seq<LogEntry>)
    requires Framed(pieces, entries)
    ensures Left(pieces, entries)
  {
  }

  /** An append interrupted after the body leaves such a log, and it is not framed. */
  lemma BodyLeaves(pieces: seq<Piece>, entries: seq<LogEntry>, e: LogEntry, n: nat)
    requires Framed(pieces, entries)
    ensures Left(pieces + [Body(e, n)], entries) && !Framed(pieces + [Body(e, n)], entries)
  {
    assert (pieces + [Body(e, n)])[..|pieces|] == pieces;
  }

  /** Reopening resumes after the last byte, not after the last entry read. An append then reads
      back exactly when the previous writer was not interrupted; otherwise the log is refused. */
  lemma AppendReadsIffFramed(pieces: seq<Piece>, entries: seq<LogEntry>, e: LogEntry, n: nat)
    requires Left(pieces, entries)
    ensures Parse(pieces, []) == Ok(entries)
    ensures Framed(pieces, entries) ==> Parse(pieces + [Body(e, n)] + [Trailer(entries + [e])], []) == Ok(entries + [e])
    ensures !Framed(pieces, entries) ==> Parse(pieces + [Body(e, n)] + [Trailer(entries + [e])], []) == Err(Integrity)
  {
    hide Framed, Parse;
    var longer := pieces + [Body(e, n)] + [Trailer(entries + [e])];
    if Framed(pieces, entries) {
      FramedReads(pieces, entries);
      FramedAppend(pieces, entries, e, n);
      FramedReads(longer, entries + [e]);
    } else {
      var before, bare := pieces[..|pieces| - 1], pieces[|pieces| - 1];
      LeftReads(pieces, entries);
      var tail := [bare, Body(e, n), Trailer(entries + [e])];
      assert longer == before[0..] + tail && entries[..0] == [];
      ParseFramed(before, entries, tail, 0);
      BareBodyRefused(bare, e, n, entries);
    }
  }

  lemma BareBodyRefused(bare: Piece, e: LogEntry, n: nat, entries: seq<LogEntry>)
    requires bare.Body?
    ensures Parse([bare, Body(e, n), Trailer(entries + [e])], entries) == Err(Integrity)
  {
    var tail := [bare, Body(e, n), Trailer(entries + [e])];
    assert tail[1..] == [Body(e, n), Trailer(entries + [e])];
    assert tail[1..][1..] == [Trailer(entries + [e])];
    assert [Trailer(entries + [e])][1..] == [];
    assert Bytes(tail[1..][1..]) == 32;
  }

  /** Nothing follows, or an entry too close to the end of the file for its chain hash. */
  predicate EndsThere(tail: seq<Piece>) { tail == [] || (tail[0].Body? && Bytes(tail[1..]) < 32) }

  /** These entries stand at the front, each followed by its own chain hash, and nothing follows but perhaps an
      entry too close to the end for its hash. */
  ghost predicate LogHolds(pieces: seq<Piece>, entries: seq<LogEntry>) {
    2 * |entries| <= |pieces| && Framed(pieces[..2 * |entries|], entries) && EndsThere(pieces[2 * |entries|..])
  }

  lemma HoldsFront(front: seq<Piece>, rest: seq<Piece>, done: seq<LogEntry>)
    requires Framed(front, done) && EndsThere(rest)
    ensures LogHolds(front + rest, done)
  {
    hide EndsThere;
    var n := 2 * |done|;
    assert (front + rest)[..n] == front && (front + rest)[n..] == rest;
  }

  lemma {:induction false} ParseHolds(front: seq<Piece>, rest: seq<Piece>, done: seq<LogEntry>, entries: seq<LogEntry>)
    requires Framed(front, done) && Parse(rest, done) == Ok(entries)
    ensures LogHolds(front + rest, entries)
    decreases |rest|
  {
    hide Framed, LogHolds;
    if EndsThere(rest) {
      HoldsFront(front, rest, done);
    } else {
      var body, more := rest[0], rest[2..];
      var next := done + [body.entry];
      assert rest[1] == Trailer(next);
      FramedAppend(front, done, body.entry, body.bytes);
      ParseHolds(front + [Body(body.entry, body.bytes)] + [Trailer(next)], more, next, entries);
      assert front + rest == front + [Body(body.entry, body.bytes)] + [Trailer(next)] + more;
    }
  }

  lemma {:induction false} RefusesAsCorrupt(pieces: seq<Piece>, done: seq<LogEntry>)
    ensures Parse(pieces, done).Err? ==> Parse(pieces, done).error == Integrity
    decreases |pieces|
  {
    if |pieces| > 1 && pieces[0].Body? {
      RefusesAsCorrupt(pieces[2..], done + [pieces[0].entry]);
    }
  }

  /** Every log that does not hold some entries in this way is refused as corrupt, and one that does reads as
      these entries. */
  lemma ReadsExactly(pieces: seq<Piece>, entries: seq<LogEntry>)
    ensures Parse(pieces, []) == Ok(entries) <==> LogHolds(pieces, entries)
    ensures Parse(pieces, []).Err? ==> Parse(pieces, []) == Err(Integrity)
  {
    hide Parse, Framed, EndsThere;
    RefusesAsCorrupt(pieces, []);
    if Parse(pieces, []) == Ok(entries) {
      NothingFramed();
      ParseHolds([], pieces, [], entries);
      assert [] + pieces == pieces;
    }
    if LogHolds(pieces, entries) {
      var n := 2 * |entries|;
      ParseFramed(pieces[..n], entries, pieces[n..], 0);
      assert pieces[..n][0..] + pieces[n..] == pieces && entries[..0] == [];
      ParseEnds(pieces[n..], entries);
    }
  }

  lemma NothingFramed()
    ensures Framed([], [])
  {
  }

  lemma ParseEnds(tail: seq<Piece>, done: seq<LogEntry>)
    requires EndsThere(tail)
    ensures Parse(tail, done) == Ok(done)
  {
  }

  // ---- Replay ------------------------------------------------------------------------

  function Apply(rows: seq<Row>, e: LogEntry): seq<Row> {
    match e
    case Save(entry) => rows + [NewRow(entry)]
    case Tombstone(index) => Deleted(rows, index)
    case ActivationUpdate => rows
  }

  function Replay(rows: seq<Row>, entries: seq<LogEntry>): seq<Row> {
    if entries == [] then rows
    else Apply(Replay(rows, entries[..|entries| - 1]), entries[|entries| - 1])
  }

  lemma ReplaySnoc(rows: seq<Row>, entries: seq<LogEntry>, e: LogEntry)
    ensures Replay(rows, entries + [e]) == Apply(Replay(rows, entries), e)
  {
    assert (entries + [e])[..|entries|] == entries;
  }

  function Saves(entries: seq<LogEntry>): nat {
    if entries == [] then 0
    else Saves(entries[..|entries| - 1]) + if entries[|entries| - 1].Save? then 1 else 0
  }

  lemma {:induction false} ReplayGrows(rows: seq<Row>, entries: seq<LogEntry>)
    ensures |Replay(rows, entries)| == |rows| + Saves(entries)
  {
    if entries != [] {
      ReplayGrows(rows, entries[..|entries| - 1]);
    }
  }

  ghost predicate OnlySaves(entries: seq<LogEntry>) { forall i :: 0 <= i < |entries| ==> entries[i].Save? }

  /** A log of saves replays as its own rows appended to whatever was there. */
  lemma {:induction false} ReplayAppends(rows: seq<Row>, entries: seq<LogEntry>)
    requires OnlySaves(entries)
    ensures Replay(rows, entries) == rows + Replay([], entries)
    ensures |Replay([], entries)| == |entries|
  {
    if entries != [] {
      ReplayAppends(rows, entries[..|entries| - 1]);
    }
  }

  /** The method form of replay: one pass over the log. */
  method ReplayInto(rows: seq<Row>, entries: seq<LogEntry>) returns (out: seq<Row>)
    ensures out == Replay(rows, entries)
  {
    out := rows;
    for i := 0 to |entries|
      invariant out == Replay(rows, entries[..i])
    {
      assert entries[..i + 1] == entries[..i] + [entries[i]];
      ReplaySnoc(rows, entries[..i], entries[i]);
      out := Apply(out, entries[i]);
    }
    assert entries[..|entries|] == entries;
  }
}

/** The `.h5` image: embeddings are stored flat and cut up again on load. */
module Storage {
  import opened Wrappers
  import opened Cache
  import opened WriteAheadLog

  /** Sessions and the knowledge graph, as far as durability is concerned. */
  datatype Side = Side(sessions: seq<string>, knowledge: seq<string>)

  /** `metas` are the rows without their embeddings. */
  datatype Image = Image(dim: nat, metas: seq<Row>, flat: Vector, side: Side)

  datatype Contents = Contents(rows: seq<Row>, side: Side)

  datatype DiskState = DiskState(image: Option<Image>, log: LogFile)

  function Metas(rows: seq<Row>): seq<Row> {
    if rows == [] then [] else Metas(rows[..|rows| - 1]) + [rows[|rows| - 1].(embedding := [])]
  }

  function Build(c: Contents, dim: nat): Image { Image(dim, Metas(c.rows), Flattened(c.rows), c.side) }

  /** Cuts the flat embeddings into pieces of length `dim`. */
  function Cut(metas: seq<Row>, flat: Vector, dim: nat): seq<Row>
    requires |flat| == |metas| * dim
  {
    if metas == [] then []
    else
      assert |metas| * dim == (|metas| - 1) * dim + dim;
      var n, at := |metas| - 1, |flat| - dim;
      Cut(metas[..n], flat[..at], dim) + [metas[n].(embedding := flat[at..])]
  }

  /** Loading fails on a wrong flat length, and on zero-length pieces. */
  function Load(image: Image): Option<Contents> {
    if image.metas == [] then Some(Contents([], image.side))
    else if |image.flat| != |image.metas| * image.dim || image.dim == 0 then None
    else Some(Contents(Cut(image.metas, image.flat, image.dim), image.side))
  }

  ghost predicate Uniform(rows: seq<Row>, dim: nat) {
    (rows != [] ==> dim > 0) && forall i :: 0 <= i < |rows| ==> |rows[i].embedding| == dim
  }

  lemma CutSnoc(metas: seq<Row>, last: Row, flat: Vector, v: Vector, dim: nat)
    requires |flat| == |metas| * dim && |v| == dim
    ensures |flat + v| == |metas + [last]| * dim
    ensures Cut(metas + [last], flat + v, dim) == Cut(metas, flat, dim) + [last.(embedding := v)]
  {
    assert (|metas| + 1) * dim == |metas| * dim + dim;
    assert (metas + [last])[..|metas|] == metas && (flat + v)[..|flat|] == flat && (flat + v)[|flat|..] == v;
  }

  lemma MetasSnoc(before: seq<Row>, last: Row)
    ensures Metas(before + [last]) == Metas(before) + [last.(embedding := [])]
  {
    assert (before + [last])[..|before|] == before;
  }

  lemma {:induction false} UniformBuilds(rows: seq<Row>, dim: nat)
    requires forall i :: 0 <= i < |rows| ==> |rows[i].embedding| == dim
    ensures |Metas(rows)| == |rows| && |Flattened(rows)| == |Metas(rows)| * dim
    ensures Cut(Metas(rows), Flattened(rows), dim) == rows
    decreases |rows|
  {
    if rows != [] {
      UniformBuildsSnoc(rows[..|rows| - 1], rows[|rows| - 1], dim);
      assert rows == rows[..|rows| - 1] + [rows[|rows| - 1]];
    }
  }

  lemma {:induction false} UniformBuildsSnoc(before: seq<Row>, last: Row, dim: nat)
    requires |last.embedding| == dim && forall i :: 0 <= i < |before| ==> |before[i].embedding| == dim
    ensures |Metas(before + [last])| == |before| + 1 && |Flattened(before + [last])| == |Metas(before + [last])| * dim
    ensures Cut(Metas(before + [last]), Flattened(before + [last]), dim) == before + [last]
    decreases |before| + 1, 0
  {
    hide Metas, Cut, Flattened;
    UniformBuilds(before, dim);
    MetasSnoc(before, last);
    CompactedSnoc(before, last);
    CutSnoc(Metas(before), last.(embedding := []), Flattened(before), last.embedding, dim);
  }

  lemma {:induction false} CutIsUniform(metas: seq<Row>, flat: Vector, dim: nat)
    requires |flat| == |metas| * dim
    ensures |Cut(metas, flat, dim)| == |metas|
    ensures forall i :: 0 <= i < |metas| ==> |Cut(metas, flat, dim)[i].embedding| == dim
  {
    if metas != [] {
      assert |metas| * dim == (|metas| - 1) * dim + dim;
      CutIsUniform(metas[..|metas| - 1], flat[..|flat| - dim], dim);
    }
  }

  lemma {:induction false} MetasSize(rows: seq<Row>)
    ensures |Metas(rows)| == |rows|
  {
    if rows != [] {
      MetasSize(rows[..|rows| - 1]);
    }
  }

  /** The image gives back what was written exactly when every embedding has the configured length. */
  lemma LoadsIffUniform(c: Contents, dim: nat)
    ensures Load(Build(c, dim)) == Some(c) <==> Uniform(c.rows, dim)
  {
    hide Metas, Cut, Flattened;
    MetasSize(c.rows);
    var image := Build(c, dim);
    if Uniform(c.rows, dim) {
      UniformBuilds(c.rows, dim);
    }
    if c.rows != [] && Load(image) == Some(c) {
      CutIsUniform(image.metas, image.flat, dim);
    }
  }

  function ReadLog(log: LogFile): Result<seq<LogEntry>> {
    match log
    case NoFile => Ok([])
    case Torn(_) => Err(Io)
    case Log(_, pieces) => Parse(pieces, [])
  }

  /** What opening the store finds on this disk. */
  function Recover(d: DiskState): Result<Contents> {
    if d.image.None? then Err(Io)
    else if Load(d.image.value).None? then Err(Schema)
    else
      var c := Load(d.image.value).value;
      match ReadLog(d.log)
      case Ok(entries) => Ok(c.(rows := Replay(c.rows, entries)))
      case Err(e) => Err(e)
  }

  /** On a created store the leftovers of an earlier log show up exactly when they hold a save. */
  lemma StaleLogShowsIffSave(entries: seq<LogEntry>)
    ensures Replay([], entries) == [] <==> Saves(entries) == 0
  {
    ReplayGrows([], entries);
  }
}
