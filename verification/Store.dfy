/** The store: cache, log, image and index moving together, one disk action at a time. */
module Store {
  import opened Wrappers
  import opened Cache
  import opened WriteAheadLog
  import opened Storage
  import opened VectorIndex
  import Hybrid
  import VectorSearch

  // ---- Disk states between two actions ------------------------------------------------

  ghost predicate Holding(d: DiskState, c: Contents) { d.image.Some? && Load(d.image.value) == Some(c) }

  /** A log file that a writer of saves can have left, interrupted or not. */
  ghost predicate WriterLog(log: LogFile) {
    log.Log? ==>
      && ReadLog(log).Ok? && Left(log.pieces, ReadLog(log).value)
      && OnlySaves(ReadLog(log).value) && log.count <= |ReadLog(log).value|
  }

  /** A flush of `c` under way or done: the complete image of `c`, beside the log as it was, a log cut
      off in its header, or an empty log. */
  ghost predicate Flushing(d: DiskState, c: Contents, pending: seq<LogEntry>) {
    && Holding(d, c) && WriterLog(d.log)
    && (ReadLog(d.log) == Ok(pending) || ReadLog(d.log) == Ok([]) || d.log.Torn?)
  }

  ghost predicate AllFlushing(trace: seq<DiskState>, since: nat, c: Contents, pending: seq<LogEntry>) {
    forall i :: since <= i < |trace| ==> Flushing(trace[i], c, pending)
  }

  function Logged(c: Contents, e: Entry): Contents { c.(rows := c.rows + [NewRow(e)]) }

  /** A save of `e` being logged: what was recoverable, or the same with one more row. */
  ghost predicate Logging(d: DiskState, was: Contents, e: Entry) {
    WriterLog(d.log) && (Recover(d) == Ok(was) || Recover(d) == Ok(Logged(was, e)))
  }

  ghost predicate AllLogging(trace: seq<DiskState>, since: nat, was: Contents, e: Entry) {
    forall i :: since <= i < |trace| ==> Logging(trace[i], was, e)
  }

  /** A save of `e` under way: being logged, or in a flush of `after`. */
  ghost predicate Saving(d: DiskState, was: Contents, e: Entry, after: Contents, pending: seq<LogEntry>) {
    Logging(d, was, e) || Flushing(d, after, pending)
  }

  ghost predicate AllSaving(trace: seq<DiskState>, since: nat, was: Contents, e: Entry, after: Contents,
                            pending: seq<LogEntry>)
  {
    forall i :: since <= i < |trace| ==> Saving(trace[i], was, e, after, pending)
  }

  /** In the window between rename and truncation the recovered store is the full cache followed by
      the rows of the pending log, so it is the cache only if nothing was pending; a torn log makes
      opening fail. */
  lemma WindowShape(d: DiskState, after: Contents, pending: seq<LogEntry>)
    requires Holding(d, after) && OnlySaves(pending)
    ensures ReadLog(d.log) == Ok(pending) ==> Recover(d) == Ok(after.(rows := after.rows + Replay([], pending)))
    ensures ReadLog(d.log) == Ok(pending) ==> (Recover(d) == Ok(after) <==> pending == [])
    ensures d.log.Torn? ==> Recover(d) == Err(Io)
  {
    hide Load, Parse, Replay;
    ReplayAppends(after.rows, pending);
    ReplayNothing(after.rows);
    assert pending != [] ==> |after.rows + Replay([], pending)| != |after.rows|;
  }

  lemma ReplayNothing(rows: seq<Row>)
    ensures Replay(rows, []) == rows
  {
  }

  // ---- Rows up to their weight ---------------------------------------------------------------

  function Bare(r: Row): Row { r.(weight := 0.0) }

  /** The live rows, up to their weights. */
  ghost function LiveBare(rows: seq<Row>): set<Row> { set r | r in rows && r.tombstone == 0 :: Bare(r) }

  /** Opening this disk finds a live row `x`, or fails on a torn log beside an image that holds it. */
  ghost predicate Found(d: DiskState, x: Row) {
    || (Recover(d).Ok? && x in LiveBare(Recover(d).value.rows))
    || (d.log.Torn? && d.image.Some? && Load(d.image.value).Some? && x in LiveBare(Load(d.image.value).value.rows))
  }

  lemma LiveBareGrows(rows: seq<Row>, more: seq<Row>)
    ensures LiveBare(rows + more) == LiveBare(rows) + LiveBare(more)
  {
    forall x
      ensures x in LiveBare(rows + more) <==> x in LiveBare(rows) + LiveBare(more)
    {
      if x in LiveBare(rows) {
        var r :| r in rows && r.tombstone == 0 && Bare(r) == x;
        assert r in rows + more;
      }
      if x in LiveBare(more) {
        var r :| r in more && r.tombstone == 0 && Bare(r) == x;
        assert r in rows + more;
      }
    }
  }

  /** Wherever a crash hits a flush, no live row of what is flushed is lost. */
  lemma FlushLosesNothing(d: DiskState, c: Contents, pending: seq<LogEntry>, x: Row)
    requires Flushing(d, c, pending) && OnlySaves(pending) && x in LiveBare(c.rows)
    ensures Found(d, x)
  {
    hide Load, Parse, Replay, LiveBare;
    WindowShape(d, c, pending);
    WindowShape(d, c, []);
    LiveBareGrows(c.rows, Replay([], pending));
  }

  // ---- The log file ------------------------------------------------------------------------------

  class Disk {
    var state: DiskState
    ghost var trace: seq<DiskState>

    constructor (state: DiskState)
      ensures this.state == state && trace == []
    {
      this.state, trace := state, [];
    }

    method Put(next: DiskState)
      modifies this
      ensures state == next && trace == old(trace) + [next]
    {
      state, trace := next, trace + [next];
    }
  }

  ghost predicate Extends(trace: seq<DiskState>, older: seq<DiskState>) {
    |older| <= |trace| && trace[..|older|] == older
  }

  /** A log file an interrupted append can leave, of these entries or of these and one more. */
  ghost predicate LeftBy(log: LogFile, before: seq<LogEntry>, after: seq<LogEntry>) {
    && log.Log?
    && ((Left(log.pieces, before) && log.count <= |before|) || (Left(log.pieces, after) && log.count <= |after|))
  }

  class WalFile {
    const disk: Disk
    var count: nat
    var unsynced: nat
    /** What the running chain hash commits to: every entry in the file. */
    var chain: seq<LogEntry>

    /** The file is one that a writer left, interrupted or not, and the header's count lags by less than a group. */
    ghost predicate Valid() reads this, disk {
      && disk.state.log.Log? && Left(disk.state.log.pieces, chain)
      && disk.state.log.count + unsynced == count <= |chain| && unsynced < GROUP_COMMIT_SIZE
    }

    /** The file ends in the chain hash of its last entry. */
    ghost predicate Sealed() reads this, disk { disk.state.log.Log? && Framed(disk.state.log.pieces, chain) }

    constructor (disk: Disk, count: nat, chain: seq<LogEntry>)
      ensures this.disk == disk && this.count == count && this.chain == chain && unsynced == 0
    {
      this.disk, this.count, this.unsynced, this.chain := disk, count, 0, chain;
    }

    /** Appends one entry: its body, its chain hash, and every eighth time the header's count. On a sealed
        file every state on the way is one that reads as the old or the new entries; on a file that ends
        in a bare body the append makes the whole log refused. */
    method Append(e: LogEntry, bytes: nat)
      requires Valid()
      modifies this, disk
      ensures chain == old(chain) + [e] && count == old(count) + 1
      ensures disk.state.image == old(disk.state.image) && Extends(disk.trace, old(disk.trace))
      ensures forall i :: |old(disk.trace)| <= i < |disk.trace| ==> disk.trace[i].image == disk.state.image
      ensures old(Sealed()) ==> Valid() && Sealed()
      ensures old(Sealed()) ==>
        forall i :: |old(disk.trace)| <= i < |disk.trace| ==> LeftBy(disk.trace[i].log, old(chain), chain)
      ensures !old(Sealed()) ==> disk.state.log.Log? && ReadLog(disk.state.log) == Err(Integrity)
    {
      hide Framed, Parse, Left;
      ghost var pieces := disk.state.log.pieces;
      AppendReadsIffFramed(pieces, chain, e, bytes);
      if Framed(pieces, chain) {
        FramedAppend(pieces, chain, e, bytes);
        BodyLeaves(pieces, chain, e, bytes);
        FramedIsLeft(pieces + [Body(e, bytes)] + [Trailer(chain + [e])], chain + [e]);
      }
      disk.Put(disk.state.(log := disk.state.log.(pieces := disk.state.log.pieces + [Body(e, bytes)])));
      disk.Put(disk.state.(log := disk.state.log.(pieces := disk.state.log.pieces + [Trailer(chain + [e])])));
      chain := chain + [e];
      count, unsynced := count + 1, unsynced + 1;
      if unsynced >= GROUP_COMMIT_SIZE {
        disk.Put(disk.state.(log := disk.state.log.(count := count)));
        unsynced := 0;
      }
    }

    /** Recreates the file empty, then writes its header field by field. */
    method Truncate()
      modifies this, disk
      ensures Valid() && Sealed() && chain == [] && count == 0 && disk.state.log == Log(0, [])
      ensures disk.state.image == old(disk.state.image) && Extends(disk.trace, old(disk.trace))
      ensures forall i :: |old(disk.trace)| <= i < |disk.trace| ==>
        disk.trace[i].image == disk.state.image && (disk.trace[i].log.Torn? || disk.trace[i].log == Log(0, []))
    {
      disk.Put(disk.state.(log := Torn(0)));
      disk.Put(disk.state.(log := Torn(4)));
      disk.Put(disk.state.(log := Torn(5)));
      disk.Put(disk.state.(log := Log(0, [])));
      count, unsynced, chain := 0, 0, [];
    }
  }

  /** Opens the log, creating it if there is none. The handle is good for a file a writer left whose header
      does not overcount; it is sealed if that writer was not interrupted. */
  method OpenLog(disk: Disk) returns (r: Result<WalFile>)
    modifies disk
    ensures disk.state.image == old(disk.state.image)
    ensures r.Ok? <==> old(ReadLog(disk.state.log)).Ok?
    ensures r.Ok? ==> fresh(r.value) && r.value.disk == disk && Ok(r.value.chain) == old(ReadLog(disk.state.log))
    ensures r.Ok? ==> ReadLog(disk.state.log) == old(ReadLog(disk.state.log)) && disk.state.log.Log?
    ensures r.Ok? && old(disk.state.log).NoFile? ==>
      r.value.Valid() && r.value.Sealed() && r.value.chain == [] && r.value.count == 0
    ensures r.Ok? && old(disk.state.log).Log? ==> disk.state == old(disk.state) && r.value.count == disk.state.log.count
    ensures r.Ok? && old(disk.state.log).Log? ==>
      (r.value.Valid() <==> Left(disk.state.log.pieces, r.value.chain) && disk.state.log.count <= |r.value.chain|)
    ensures r.Ok? && old(disk.state.log).Log? ==> (r.value.Sealed() <==> Framed(disk.state.log.pieces, r.value.chain))
  {
    match disk.state.log
    case NoFile =>
      var w := new WalFile(disk, 0, []);
      w.Truncate();
      r := Ok(w);
    case Torn(_) =>
      r := Err(Io);
    case Log(count, pieces) =>
      match Parse(pieces, [])
      case Err(e) =>
        r := Err(e);
      case Ok(entries) =>
        var w := new WalFile(disk, count, entries);
        r := Ok(w);
  }

  // ---- The store ------------------------------------------------------------------------

  datatype Config = Config(dim: nat, walMax: nat, compactThreshold: real, decayFactor: real, boost: real)

  function NewRows(entries: seq<Entry>): seq<Row> {
    seq(|entries|, i requires 0 <= i < |entries| => NewRow(entries[i]))
  }

  /** The rows from `from` on carry the entries, each with weight one. */
  ghost predicate AllCarry(rows: seq<Row>, from: nat, entries: seq<Entry>) {
    && |rows| == from + |entries|
    && forall k :: 0 <= k < |entries| ==> Carries(rows[from + k], entries[k]) && rows[from + k].weight == 1.0
  }

  lemma NewRowsCarry(before: seq<Row>, entries: seq<Entry>)
    ensures AllCarry(before + NewRows(entries), |before|, entries)
  {
  }

  function Scaled(rows: seq<Row>, factor: real): seq<Row> {
    seq(|rows|, i requires 0 <= i < |rows| => rows[i].(weight := rows[i].weight * factor))
  }

  function Boosted(rows: seq<Row>, hits: seq<nat>, boost: real): seq<Row>
    requires forall i :: 0 <= i < |hits| ==> hits[i] < |rows|
    ensures |Boosted(rows, hits, boost)| == |rows|
  {
    if hits == [] then rows
    else
      var before, h := Boosted(rows, hits[..|hits| - 1], boost), hits[|hits| - 1];
      before[h := before[h].(weight := before[h].weight + boost)]
  }

  /** The row an upsert writes carries the entry, in a new place or over the row it found. */
  lemma UpsertRow(rows: seq<Row>, e: Entry)
    ensures Carries(NewRow(e), e) && NewRow(e).weight == 1.0
    ensures FindByTags(rows, e.tags).Some? ==>
      Updated(rows, FindByTags(rows, e.tags).value, e) == rows[FindByTags(rows, e.tags).value := NewRow(e)]
  {
    hide FindByTags;
  }

  /** Every hit grows by the boost, once, and no other row changes. */
  lemma {:induction false} BoostsHits(rows: seq<Row>, hits: seq<nat>, boost: real)
    requires forall i :: 0 <= i < |hits| ==> hits[i] < |rows|
    requires forall i, j :: 0 <= i < j < |hits| ==> hits[i] != hits[j]
    ensures forall i :: 0 <= i < |rows| ==>
      Boosted(rows, hits, boost)[i] == rows[i].(weight := rows[i].weight + if i in hits then boost else 0.0)
  {
    if hits != [] {
      var before, h := hits[..|hits| - 1], hits[|hits| - 1];
      assert hits == before + [h] && h !in before;
      BoostsHits(rows, before, boost);
    }
  }

  /** While a save is being appended to a sealed log, recovery moves from what it was to one row more. */
  lemma AppendMoves(d: DiskState, was: DiskState, c: Contents, before: seq<LogEntry>, e: Entry)
    requires Recover(was) == Ok(c) && ReadLog(was.log) == Ok(before) && d.image == was.image
    requires LeftBy(d.log, before, before + [LogEntry.Save(e)])
    ensures Recover(d) == Ok(if ReadLog(d.log) == Ok(before) then c else Logged(c, e))
    ensures OnlySaves(before) ==> WriterLog(d.log)
  {
    hide Load, Left, Parse;
    ReplaySnoc(Load(was.image.value).value.rows, before, LogEntry.Save(e));
    if Left(d.log.pieces, before) && d.log.count <= |before| {
      LeftReads(d.log.pieces, before);
    } else {
      LeftReads(d.log.pieces, before + [LogEntry.Save(e)]);
    }
  }

  /** Recovery after an append of a save is the cache after a push exactly when it was the cache before. */
  lemma AppendRecoversIff(d: DiskState, was: DiskState, c: Contents, before: seq<LogEntry>, e: Entry)
    requires ReadLog(was.log) == Ok(before) && d.image == was.image
    requires ReadLog(d.log) == Ok(before + [LogEntry.Save(e)])
    ensures Recover(d) == Ok(Logged(c, e)) <==> Recover(was) == Ok(c)
  {
    hide Load;
    if was.image.Some? && Load(was.image.value).Some? {
      var rows := Replay(Load(was.image.value).value.rows, before);
      ReplaySnoc(Load(was.image.value).value.rows, before, LogEntry.Save(e));
      assert rows + [NewRow(e)] == c.rows + [NewRow(e)] <==> rows == c.rows by {
        assert (rows + [NewRow(e)])[..|rows|] == rows && (c.rows + [NewRow(e)])[..|c.rows|] == c.rows;
      }
    }
  }

  class HDF5Memory {
    const config: Config
    const disk: Disk
    const wal: WalFile?
    var rows: seq<Row>
    var side: Side
    var hnsw: Option<Index>
    var hnswDirty: bool
    var hnswSynced: nat

    ghost function View(): Contents reads this { Contents(rows, side) }

    ghost function Pending(): seq<LogEntry> reads wal { if wal == null then [] else wal.chain }

    ghost predicate Attached() reads disk {
      (wal != null ==> wal.disk == disk) && (wal == null ==> disk.state.log.NoFile?)
    }

    /** The log is one that a writer of saves left. */
    ghost predicate LogValid() reads disk, wal {
      Attached() && (wal != null ==> wal.Valid() && OnlySaves(wal.chain))
    }

    ghost predicate Sealed() reads disk, wal { wal != null ==> wal.disk == disk && wal.Sealed() }

    ghost predicate Mirrored() reads this { Mirrors(hnsw, hnswDirty, hnswSynced, rows, config.dim) }

    ghost predicate Valid() reads this, disk, wal { LogValid() && Mirrored() }

    /** Replaying the log over the image gives exactly what is in memory. */
    ghost predicate Recovers() reads this, disk { Recover(disk.state) == Ok(View()) }

    /** A flush has happened: the log is empty and sealed, the disk gives back the cache exactly when every
        embedding has the configured length, and then no state on the way could lose it. */
    twostate predicate Persisted() reads this, disk, wal {
      && LogValid() && Sealed() && Pending() == [] && Extends(disk.trace, old(disk.trace))
      && (Recovers() <==> Uniform(rows, config.dim))
      && (Uniform(rows, config.dim) ==> AllFlushing(disk.trace, |old(disk.trace)|, View(), old(Pending())))
    }

    /** Neither disk nor log have been touched. */
    twostate predicate Untouched() reads disk, wal {
      && disk.state == old(disk.state) && disk.trace == old(disk.trace) && Pending() == old(Pending())
      && (LogValid() <==> old(LogValid())) && (Sealed() <==> old(Sealed()))
    }

    constructor (config: Config, disk: Disk, wal: WalFile?, rows: seq<Row>, side: Side, dirty: bool)
      requires wal != null ==> wal.disk == disk
      ensures this.config == config && this.disk == disk && this.wal == wal && this.rows == rows && this.side == side
      ensures hnsw == None && hnswDirty == dirty && hnswSynced == 0
    {
      this.config, this.disk, this.wal, this.rows, this.side := config, disk, wal, rows, side;
      hnsw, hnswDirty, hnswSynced := None, dirty, 0;
    }

    lemma PendingReads()
      requires LogValid()
      ensures ReadLog(disk.state.log) == Ok(Pending())
    {
      hide Parse, Left;
      if wal != null {
        LeftReads(wal.disk.state.log.pieces, wal.chain);
      }
    }

    lemma PendingIsWriters()
      requires LogValid()
      ensures WriterLog(disk.state.log)
    {
      hide Parse, Left;
      PendingReads();
    }

    /** Writes the whole image by rename, then truncates the log; this also repairs a log that was refused. */
    method Flush()
      requires Attached()
      modifies disk, wal
      ensures LogValid() && Sealed() && Pending() == [] && Extends(disk.trace, old(disk.trace))
      ensures disk.state.image == Some(Storage.Build(View(), config.dim))
      ensures Recovers() <==> Uniform(rows, config.dim)
      ensures old(LogValid()) ==> Persisted()
    {
      hide Load, Framed, Parse, Uniform, Storage.Build, Left;
      LoadsIffUniform(View(), config.dim);
      hide WriterLog;
      if LogValid() {
        PendingReads();
        PendingIsWriters();
      }
      EmptyIsWriters();
      disk.Put(disk.state.(image := Some(Storage.Build(Contents(rows, side), config.dim))));
      if wal != null {
        wal.Truncate();
        EmptyLogReads(wal);
      }
    }

    /** Flushes and truncates the log once more, as several callers of Flush do. */
    method FlushWal()
      requires Attached()
      modifies disk, wal
      ensures LogValid() && Sealed() && Pending() == [] && Extends(disk.trace, old(disk.trace))
      ensures Recovers() <==> Uniform(rows, config.dim)
      ensures old(LogValid()) ==> Persisted()
    {
      hide Load, Framed, Parse, Uniform, Storage.Build, Left, WriterLog;
      LoadsIffUniform(View(), config.dim);
      EmptyIsWriters();
      Flush();
      if wal != null {
        wal.Truncate();
        EmptyLogReads(wal);
      }
    }

    /** The log is over its limit, or there is none. */
    predicate FlushDue() reads this, wal { wal == null || wal.count > config.walMax }

    method FlushIfDue() returns (flushed: bool)
      requires Attached()
      modifies disk, wal
      ensures flushed == old(FlushDue()) && Extends(disk.trace, old(disk.trace))
      ensures flushed ==> LogValid() && Sealed() && Pending() == [] && (Recovers() <==> Uniform(rows, config.dim))
      ensures flushed && old(LogValid()) ==> Persisted()
      ensures !flushed ==> Untouched()
    {
      hide Uniform, Recover, Load, Framed;
      flushed := wal == null || wal.count > config.walMax;
      if flushed {
        FlushWal();
      }
    }

    // ---- The index ----

    method HnswOnInsert(i: nat)
      requires i + 1 == |rows| && rows[i].tombstone == 0
      requires Mirrors(hnsw, hnswDirty, hnswSynced, rows[..i], config.dim)
      modifies this`hnsw, this`hnswDirty, this`hnswSynced
      ensures Mirrored()
    {
      if hnswDirty {
        return;
      }
      if hnsw.Some? && |rows[i].embedding| == |hnsw.value.vectors[0]| {
        var id := |hnsw.value.vectors|;
        assert rows == rows[..i] + [rows[i]];
        assert rows[..i][..hnswSynced][0] == rows[0];
        if id == i {
          assert rows[..i][..hnswSynced] == rows[..i];
          InsertHolds(hnsw.value, rows[..i], rows[i], config.dim);
          assert rows[..|rows|] == rows;
          hnswSynced := |rows|;
        } else {
          hnswDirty := true;
        }
        hnsw := Some(hnsw.value.(vectors := hnsw.value.vectors + [rows[i].embedding]));
      } else {
        hnswDirty := true;
      }
    }

    method EnsureHnswFresh()
      requires Mirrored()
      modifies this`hnsw, this`hnswDirty, this`hnswSynced
      ensures Mirrored() && !hnswDirty && hnswSynced == |rows| && Fresh(hnsw, rows, config.dim)
    {
      assert rows[..|rows|] == rows;
      if hnswDirty || hnswSynced != |rows| {
        hnsw := VectorIndex.Build(rows, config.dim);
        hnswSynced := |rows|;
        hnswDirty := false;
      }
    }

    // ---- Saving ----

    /** The log after a save of `e` and before any flush. */
    ghost function LogWith(pending: seq<LogEntry>, e: Entry): seq<LogEntry> {
      if wal == null then [] else pending + [LogEntry.Save(e)]
    }

    /** Appends the save to the log, if there is one. */
    method LogSave(e: Entry, bytes: nat)
      requires LogValid()
      modifies disk, wal
      ensures Attached() && Extends(disk.trace, old(disk.trace)) && Pending() == LogWith(old(Pending()), e)
      ensures wal == null ==> disk.state == old(disk.state) && disk.trace == old(disk.trace)
      ensures wal != null ==> wal.count == old(wal.count) + 1
      ensures old(Sealed()) ==> LogValid() && Sealed()
      ensures wal != null && old(Sealed()) ==> (Recover(disk.state) == Ok(Logged(View(), e)) <==> old(Recovers()))
      ensures wal != null && old(Sealed()) && old(Recover(disk.state)).Ok? ==>
        Recover(disk.state) == Ok(Logged(old(Recover(disk.state)).value, e))
      ensures old(Sealed()) && old(Recover(disk.state)).Ok? ==>
        AllLogging(disk.trace, |old(disk.trace)|, old(Recover(disk.state)).value, e)
      ensures !old(Sealed()) && old(Recover(disk.state)).Ok? ==> Recover(disk.state) == Err(Integrity)
    {
      hide Recover, Load, Framed, Parse, Left;
      PendingReads();
      ghost var was, since, pending := disk.state, |disk.trace|, Pending();
      if wal != null {
        ghost var sealed := Sealed();
        wal.Append(LogEntry.Save(e), bytes);
        if sealed {
          PendingReads();
          AppendRecoversIff(disk.state, was, View(), pending, e);
          if Recover(was).Ok? {
            AppendRecoversIff(disk.state, was, Recover(was).value, pending, e);
            AppendTrace(was, Recover(was).value, since, pending, e);
          }
        } else if Recover(was).Ok? {
          RefusedLog(disk.state, was);
        }
      }
    }

    lemma AppendTrace(was: DiskState, c: Contents, since: nat, pending: seq<LogEntry>, e: Entry)
      requires OnlySaves(pending)
      requires Recover(was) == Ok(c) && ReadLog(was.log) == Ok(pending)
      requires forall i :: since <= i < |disk.trace| ==> disk.trace[i].image == was.image
      requires forall i :: since <= i < |disk.trace| ==>
        LeftBy(disk.trace[i].log, pending, pending + [LogEntry.Save(e)])
      ensures AllLogging(disk.trace, since, c, e)
    {
      hide Recover, LeftBy, WriterLog, OnlySaves;
      forall i | since <= i < |disk.trace|
        ensures Logging(disk.trace[i], c, e)
      {
        AppendMoves(disk.trace[i], was, c, pending, e);
      }
    }

    /** What a save does to disk and log, with `was` recoverable before: on a sealed log nothing on the way
        can lose anything, and without a flush the disk gives back `was` and the new row; on a log that ends
        in a bare body a flush repairs the log, and without one the disk is refused from now on. */
    twostate predicate Saved(e: Entry, flushed: bool) reads this, disk, wal {
      && Extends(disk.trace, old(disk.trace))
      && (flushed <==> wal == null || old(wal.count) + 1 > config.walMax)
      && (flushed ==> LogValid() && Sealed() && Pending() == [] && (Recovers() <==> Uniform(rows, config.dim)))
      && (old(Sealed()) && !flushed ==> LogValid() && Sealed() && Pending() == LogWith(old(Pending()), e))
      && (old(Sealed()) && old(Recover(disk.state)).Ok? && !flushed ==>
            Recover(disk.state) == Ok(Logged(old(Recover(disk.state)).value, e)))
      && (old(Sealed()) && old(Recover(disk.state)).Ok? && (flushed ==> Uniform(rows, config.dim)) ==>
            AllSaving(disk.trace, |old(disk.trace)|, old(Recover(disk.state)).value, e, View(),
                      LogWith(old(Pending()), e)))
      && (!old(Sealed()) && old(Recover(disk.state)).Ok? && !flushed ==> Recover(disk.state) == Err(Integrity))
    }

    /** Logs the save, pushes the row, tells the index, and flushes if due. While it does not flush,
        any embedding is recoverable; once it does, recovery is exact iff all lengths are right. */
    method Save(e: Entry, bytes: nat) returns (i: nat, flushed: bool)
      requires Valid()
      modifies this, disk, wal
      ensures Mirrored() && rows == old(rows) + [NewRow(e)] && side == old(side) && i == |old(rows)|
      ensures rows[i].chunk == e.chunk && rows[i].embedding == e.embedding && rows[i].channel == e.channel
      ensures rows[i].timestamp == e.timestamp && rows[i].session == e.session && rows[i].tags == e.tags
      ensures rows[i].tombstone == 0 && rows[i].weight == 1.0
      ensures Saved(e, flushed)
      ensures old(Sealed()) ==> Valid() && Sealed()
      ensures old(Sealed()) ==> (Recovers() <==> if flushed then Uniform(rows, config.dim) else old(Recovers()))
    {
      hide Uniform, Recover, Load, Framed, Parse, Left, Mirrors, Saving, Flushing;
      LogSave(e, bytes);
      ghost var middle := disk.trace;
      i := |rows|;
      rows := rows + [NewRow(e)];
      assert rows[..i] == old(rows);
      HnswOnInsert(i);
      assert View() == Logged(old(View()), e);
      flushed := FlushIfDue();
      ExtendsChain(old(disk.trace), middle, disk.trace);
      if old(Sealed()) && old(Recover(disk.state)).Ok? && (flushed ==> Uniform(rows, config.dim)) {
        FinishSave(old(disk.trace), middle, disk.trace, old(Recover(disk.state)).value, e, View(),
                   LogWith(old(Pending()), e));
      }
    }

    /** Updates the first live row with the same tags in place, or saves. The log only knows saves:
        until the next flush a hit is recovered as one more row at the end instead of an update. */
    method SaveOrUpdate(e: Entry, bytes: nat) returns (i: nat, flushed: bool)
      requires Valid()
      modifies this, disk, wal
      ensures Mirrored() && side == old(side) && Saved(e, flushed)
      ensures old(Sealed()) ==> Valid() && Sealed()
      ensures FindByTags(old(rows), e.tags).None? ==> rows == old(rows) + [NewRow(e)] && i == |old(rows)|
      ensures FindByTags(old(rows), e.tags).Some? ==>
        i == FindByTags(old(rows), e.tags).value && rows == old(rows)[i := NewRow(e)]
      ensures i < |rows| && Carries(rows[i], e) && rows[i].weight == 1.0
      ensures old(Sealed()) && old(Recovers()) ==>
        (Recovers() <==> if flushed then Uniform(rows, config.dim) else FindByTags(old(rows), e.tags).None?)
    {
      hide Uniform, Recover, Load, Framed, Parse, Left, Mirrors, FindByTags, Saving, Flushing, NewRow, Updated;
      UpsertRow(rows, e);
      match FindByTags(rows, e.tags)
      case None =>
        i, flushed := Save(e, bytes);
      case Some(found) =>
        i := found;
        LogSave(e, bytes);
        ghost var middle := disk.trace;
        rows := Updated(rows, i, e);
        hnswDirty := true;
        DirtyMirrors(hnsw, hnswSynced, rows, config.dim);
        flushed := FlushIfDue();
        ExtendsChain(old(disk.trace), middle, disk.trace);
        if old(Sealed()) && old(Recover(disk.state)).Ok? && (flushed ==> Uniform(rows, config.dim)) {
          FinishSave(old(disk.trace), middle, disk.trace, old(Recover(disk.state)).value, e, View(),
                     LogWith(old(Pending()), e));
        }
    }

    // ---- Operations that write the whole image ----

    method SaveBatch(entries: seq<Entry>) returns (indices: seq<nat>)
      requires Valid()
      modifies this, disk, wal
      ensures Valid() && rows == old(rows) + NewRows(entries) && side == old(side)
      ensures |indices| == |entries| && forall k :: 0 <= k < |indices| ==> indices[k] == |old(rows)| + k
      ensures AllCarry(rows, |old(rows)|, entries)
      ensures Persisted()
    {
      hide Uniform, Recover, Load, Framed, Parse, Left, Fresh, Flushing, AllCarry;
      indices := [];
      for k := 0 to |entries|
        invariant rows == old(rows) + NewRows(entries)[..k] && side == old(side)
        invariant |indices| == k && forall j :: 0 <= j < k ==> indices[j] == |old(rows)| + j
        invariant disk.state == old(disk.state) && disk.trace == old(disk.trace)
        invariant LogValid() && Pending() == old(Pending())
      {
        indices := indices + [|rows|];
        rows := rows + [NewRow(entries[k])];
      }
      assert NewRows(entries)[..|entries|] == NewRows(entries);
      NewRowsCarry(old(rows), entries);
      hnswDirty := true;
      Flush();
    }

    /** Drops the tombstoned rows, renumbering the rest; touches the disk only if there were any. */
    method Compact() returns (removed: nat)
      requires Valid()
      modifies this, disk, wal
      ensures Valid() && rows == Compacted(old(rows)) && side == old(side) && removed == |old(rows)| - |rows|
      ensures removed == 0 ==> rows == old(rows) && Untouched()
      ensures removed > 0 ==> Persisted()
    {
      hide Uniform, Recover, Load, Framed, Parse, Left, Fresh, Flushing, Compacted;
      NothingToCompact(rows);
      removed := |rows| - |Compacted(rows)|;
      rows := Compacted(rows);
      if removed > 0 {
        hnswDirty := true;
        Flush();
      }
    }

    /** Tombstones a live row and flushes, then compacts if too many rows are tombstoned. */
    method Delete(id: nat) returns (r: Result<()>)
      requires Valid()
      modifies this, disk, wal
      ensures Valid() && side == old(side) && Extends(disk.trace, old(disk.trace))
      ensures r.Ok? <==> IsLive(old(rows), id)
      ensures r.Err? ==> r.error == NotFound && rows == old(rows) && Untouched()
      ensures var gone := Deleted(old(rows), id);
        r.Ok? ==> rows == if 0.0 < config.compactThreshold < TombstoneShare(gone) then Compacted(gone) else gone
      ensures r.Ok? ==> Sealed() && Pending() == [] && (Recovers() <==> Uniform(rows, config.dim))
      ensures r.Ok? && Uniform(Deleted(old(rows), id), config.dim) ==>
        forall i :: |old(disk.trace)| <= i < |disk.trace| ==>
          Flushing(disk.trace[i], Contents(Deleted(old(rows), id), side), old(Pending())) ||
          Flushing(disk.trace[i], View(), [])
    {
      hide Uniform, Recover, Load, Framed, Parse, Left, Fresh, Flushing, Compacted, Mirrors, TombstoneShare;
      if !IsLive(rows, id) {
        return Err(NotFound);
      }
      DeleteMirrors(hnsw, hnswDirty, hnswSynced, rows, config.dim, id);
      rows := Deleted(rows, id);
      if hnsw.Some? {
        hnsw := Some(MarkDeleted(hnsw.value, id));
      }
      Flush();
      ghost var middle := disk.trace;
      ShareCompacts(rows);
      if Uniform(rows, config.dim) {
        UniformCompacts(rows, config.dim);
      }
      if config.compactThreshold > 0.0 && TombstoneShare(rows) > config.compactThreshold {
        var removed := Compact();
        ExtendsChain(old(disk.trace), middle, disk.trace);
        assert forall i :: 0 <= i < |middle| ==> disk.trace[i] == middle[i];
      }
      r := Ok(());
    }

    /** Pushes what a strategy decided to keep, without telling the index. No strategy is an error. */
    method Record(output: Option<(seq<Entry>, seq<string>)>) returns (r: Result<()>)
      requires Valid()
      modifies this, disk, wal
      ensures Valid()
      ensures output.None? ==> r == Err(Schema) && View() == old(View()) && Untouched()
      ensures output.Some? ==> r == Ok(()) && rows == old(rows) + NewRows(output.value.0)
      ensures output.Some? ==> AllCarry(rows, |old(rows)|, output.value.0)
      ensures output.Some? ==> side == old(side).(knowledge := old(side).knowledge + output.value.1)
      ensures output == Some(([], [])) ==> View() == old(View()) && Untouched()
      ensures output.Some? && output.value != ([], []) ==> Persisted()
    {
      hide Uniform, Recover, Load, Framed, Parse, Left, Fresh, Flushing, Mirrors, AllCarry;
      if output.None? {
        return Err(Schema);
      }
      var (entries, updates) := output.value;
      PushUnhooked(entries);
      side := side.(knowledge := side.knowledge + updates);
      if entries != [] || updates != [] {
        Flush();
      }
      r := Ok(());
    }

    method PushUnhooked(entries: seq<Entry>)
      requires Mirrored()
      modifies this`rows
      ensures rows == old(rows) + NewRows(entries) && AllCarry(rows, |old(rows)|, entries) && Mirrored()
    {
      hide Mirrors, AllCarry;
      ghost var before := rows;
      for k := 0 to |entries|
        invariant rows == before + NewRows(entries)[..k]
      {
        rows := rows + [NewRow(entries[k])];
      }
      assert NewRows(entries)[..|entries|] == NewRows(entries);
      NewRowsCarry(before, entries);
      GrowMirrors(hnsw, hnswDirty, hnswSynced, before, NewRows(entries), config.dim);
    }

    /** Pushes the promoted ephemeral entries, without telling the index. */
    method PromoteEphemeral(entries: seq<Entry>) returns (promoted: nat)
      requires Valid()
      modifies this, disk, wal
      ensures Valid() && rows == old(rows) + NewRows(entries) && side == old(side) && promoted == |entries|
      ensures AllCarry(rows, |old(rows)|, entries)
      ensures entries == [] ==> rows == old(rows) && Untouched()
      ensures entries != [] ==> Persisted()
    {
      hide Uniform, Recover, Load, Framed, Parse, Left, Fresh, Flushing, Mirrors, AllCarry;
      PushUnhooked(entries);
      promoted := |entries|;
      if promoted > 0 {
        Flush();
      }
    }

    method TickSession()
      requires Valid()
      modifies this, disk, wal
      ensures Valid() && rows == Scaled(old(rows), config.decayFactor) && side == old(side)
      ensures forall i :: 0 <= i < |rows| ==>
        rows[i] == old(rows)[i].(weight := old(rows)[i].weight * config.decayFactor)
      ensures Persisted()
    {
      hide Uniform, Recover, Load, Framed, Parse, Left, Fresh, Flushing, Mirrors;
      ghost var before, target := rows, Scaled(rows, config.decayFactor);
      WeightsMirror(hnsw, hnswDirty, hnswSynced, before, target, config.dim);
      for k := 0 to |rows|
        invariant |rows| == |before| && forall j :: 0 <= j < |rows| ==>
          rows[j] == if j < k then target[j] else before[j]
        invariant LogValid() && disk.trace == old(disk.trace) && Pending() == old(Pending())
        invariant side == old(side) && hnsw == old(hnsw) && hnswDirty == old(hnswDirty) && hnswSynced == old(hnswSynced)
      {
        rows := rows[k := rows[k].(weight := rows[k].weight * config.decayFactor)];
      }
      assert rows == target;
      FlushWal();
    }

    /** A search: the index is made fresh and asked, the results are merged with the keyword hits and ranked,
        the weights of the hits grow, and the store flushes. The hits are live rows, none of them twice. */
    method HybridSearch(engine: Hybrid.Engine, q: Hybrid.Query)
      returns (hits: seq<nat>, ghost stages: Hybrid.Stages)
      requires Valid() && Hybrid.SoundEngine(engine)
      modifies this, disk, wal
      ensures Valid() && Hybrid.SoundHits(hits, old(rows)) && |hits| <= q.k
      ensures rows == Boosted(old(rows), hits, config.boost) && side == old(side)
      ensures forall i :: 0 <= i < |rows| ==>
        rows[i] == old(rows)[i].(weight := old(rows)[i].weight + if i in hits then config.boost else 0.0)
      ensures !hnswDirty && hnswSynced == |rows| && Fresh(hnsw, rows, config.dim)
      ensures Hybrid.Merges(stages, hnsw, old(rows), engine, q)
      ensures VectorSearch.DistinctIndices(stages.vec) && VectorSearch.DistinctIndices(stages.kw)
      ensures Hybrid.RanksHits(hits, stages.results, old(rows), engine.sqrt)
      ensures Persisted()
    {
      hide Hybrid.Merges, Hybrid.RanksHits, Boosted;
      hide Uniform, Recover, Load, Framed, Parse, Left, Fresh, Flushing, Mirrors, Hybrid.SoundEngine, Hybrid.AllLive;
      EnsureHnswFresh();
      var results;
      results, stages := Hybrid.VectorKeywordSearch(hnsw, rows, config.dim, engine, q);
      hits := Hybrid.RankHits(results, rows, engine.sqrt);
      BoostsHits(rows, hits, config.boost);
      ApplyBoost(hits);
      Flush();
    }

    method ApplyBoost(hits: seq<nat>)
      requires Mirrored() && !hnswDirty && hnswSynced == |rows| && Hybrid.SoundHits(hits, rows)
      modifies this`rows
      ensures forall i :: 0 <= i < |hits| ==> hits[i] < |old(rows)|
      ensures rows == Boosted(old(rows), hits, config.boost) && Mirrored() && Fresh(hnsw, rows, config.dim)
    {
      hide Fresh, Mirrors;
      ghost var before := rows;
      for k := 0 to |hits|
        invariant |rows| == |before| && rows == Boosted(before, hits[..k], config.boost)
      {
        assert hits[..k + 1][..k] == hits[..k];
        var h := hits[k];
        rows := rows[h := rows[h].(weight := rows[h].weight + config.boost)];
      }
      assert hits[..|hits|] == hits;
      BoostedKeeps(before, hits, config.boost);
      WeightsMirror(hnsw, hnswDirty, hnswSynced, before, rows, config.dim);
      FreshMirrors(hnsw, rows, config.dim);
    }

    /** Sessions and knowledge are written through. */
    method SetSide(next: Side)
      requires Valid()
      modifies this, disk, wal
      ensures Valid() && View() == Contents(old(rows), next) && Persisted()
    {
      hide Uniform, Recover, Load, Framed, Parse, Left, Fresh, Flushing, Mirrors;
      side := next;
      Flush();
    }
  }

  lemma ExtendsChain(older: seq<DiskState>, middle: seq<DiskState>, trace: seq<DiskState>)
    requires Extends(middle, older) && Extends(trace, middle)
    ensures Extends(trace, older)
  {
    assert forall i :: 0 <= i < |older| ==> trace[i] == middle[i] == older[i];
  }

  /** What was recoverable while logging, and then while flushing. */
  lemma FinishSave(older: seq<DiskState>, middle: seq<DiskState>, trace: seq<DiskState>, was: Contents, e: Entry,
                   after: Contents, pending: seq<LogEntry>)
    requires Extends(middle, older) && Extends(trace, middle) && AllLogging(middle, |older|, was, e)
    requires trace == middle || AllFlushing(trace, |middle|, after, pending)
    ensures AllSaving(trace, |older|, was, e, after, pending)
  {
    hide Logging, Flushing;
    assert forall i :: 0 <= i < |middle| ==> trace[i] == middle[i];
  }

  /** A log that is refused makes a store refused that could be opened before. */
  lemma RefusedLog(d: DiskState, was: DiskState)
    requires d.image == was.image && ReadLog(d.log) == Err(Integrity) && Recover(was).Ok?
    ensures Recover(d) == Err(Integrity)
  {
  }

  lemma DirtyMirrors(index: Option<Index>, synced: nat, rows: seq<Row>, dim: nat)
    ensures Mirrors(index, true, synced, rows, dim)
  {
  }

  lemma FreshMirrors(index: Option<Index>, rows: seq<Row>, dim: nat)
    ensures Mirrors(index, false, |rows|, rows, dim) <==> Fresh(index, rows, dim)
  {
    assert rows[..|rows|] == rows;
  }

  lemma {:induction false} BoostedKeeps(rows: seq<Row>, hits: seq<nat>, boost: real)
    requires forall i :: 0 <= i < |hits| ==> hits[i] < |rows|
    ensures var after := Boosted(rows, hits, boost);
      forall i :: 0 <= i < |rows| ==> rows[i].embedding == after[i].embedding && rows[i].tombstone == after[i].tombstone
  {
    if hits != [] {
      BoostedKeeps(rows, hits[..|hits| - 1], boost);
    }
  }

  lemma ShareCompacts(rows: seq<Row>)
    ensures TombstoneShare(rows) > 0.0 ==> |Compacted(rows)| < |rows|
  {
    TombstonesCompact(rows);
  }

  lemma UniformCompacts(rows: seq<Row>, dim: nat)
    requires Uniform(rows, dim)
    ensures Uniform(Compacted(rows), dim)
  {
    CompactedIsLive(rows);
    var kept := Compacted(rows);
    forall i | 0 <= i < |kept|
      ensures |kept[i].embedding| == dim && dim > 0
    {
      assert kept[i] in rows;
    }
  }

  lemma EmptyIsWriters()
    ensures WriterLog(Log(0, [])) && ReadLog(Log(0, [])) == Ok([])
    ensures forall n :: WriterLog(Torn(n))
  {
  }

  lemma EmptyLogReads(w: WalFile)
    requires w.Valid() && w.chain == [] && w.Sealed()
    ensures ReadLog(w.disk.state.log) == Ok([])
  {
  }

  // ---- Creating and opening ---------------------------------------------------------------

  /** Writes an empty image and opens the log beside it, keeping whatever an earlier store left
      there: the new store recovers as empty exactly when that log reads and holds no save. */
  method Create(config: Config, disk: Disk, walEnabled: bool, side: Side) returns (r: Result<HDF5Memory>)
    modifies disk
    ensures r.Ok? <==> !walEnabled || old(ReadLog(disk.state.log)).Ok?
    ensures r.Ok? ==> fresh(r.value) && r.value.disk == disk && r.value.View() == Contents([], side)
    ensures r.Ok? ==> r.value.config == config && (r.value.wal != null <==> walEnabled)
    ensures r.Ok? && walEnabled ==> fresh(r.value.wal)
    ensures r.Ok? ==>
      (r.value.Recovers() <==> old(ReadLog(disk.state.log)).Ok? && Saves(old(ReadLog(disk.state.log)).value) == 0)
    ensures r.Ok? && old(disk.state.log).NoFile? ==> r.value.Valid() && r.value.Sealed() && r.value.Pending() == []
    ensures r.Ok? && old(disk.state.log).NoFile? && walEnabled ==> r.value.wal.count == 0
  {
    hide Framed, Parse, Replay;
    var empty := Contents([], side);
    disk.Put(disk.state.(image := Some(Storage.Build(empty, config.dim))));
    LoadsIffUniform(empty, config.dim);
    if ReadLog(disk.state.log).Ok? {
      StaleLogShowsIffSave(ReadLog(disk.state.log).value);
    }
    if !walEnabled {
      var m := new HDF5Memory(config, disk, null, [], side, false);
      return Ok(m);
    }
    var w := OpenLog(disk);
    match w
    case Err(e) => r := Err(e);
    case Ok(wal) =>
      var m := new HDF5Memory(config, disk, wal, [], side, false);
      r := Ok(m);
  }

  /** Loads the image and replays the log over it. */
  method Open(config: Config, disk: Disk, walEnabled: bool) returns (r: Result<HDF5Memory>)
    requires disk.state.image.Some? ==> disk.state.image.value.dim == config.dim
    modifies disk
    ensures r.Ok? <==> old(Recover(disk.state)).Ok?
    ensures r.Ok? ==>
      fresh(r.value) && r.value.disk == disk && Ok(r.value.View()) == old(Recover(disk.state)) && r.value.Recovers()
    ensures r.Ok? ==> r.value.config == config && (r.value.wal != null ==> fresh(r.value.wal))
    ensures r.Ok? && old(disk.state.log).NoFile? ==> r.value.Valid() && r.value.Sealed()
    ensures r.Ok? && old(disk.state.log).Log? ==>
      r.value.wal != null && disk.state == old(disk.state) && Ok(r.value.wal.chain) == ReadLog(disk.state.log)
    ensures r.Ok? && old(disk.state.log).Log? ==>
      (r.value.Valid() <==> Left(disk.state.log.pieces, r.value.wal.chain) && OnlySaves(r.value.wal.chain)
                            && disk.state.log.count <= |r.value.wal.chain|)
    ensures r.Ok? && old(disk.state.log).Log? ==> r.value.wal.count == disk.state.log.count
    ensures r.Ok? && old(disk.state.log).Log? ==>
      (r.value.Sealed() <==> Framed(disk.state.log.pieces, r.value.wal.chain))
  {
    hide Load, Framed, Parse, Left;
    if disk.state.image.None? {
      return Err(Io);
    }
    match Load(disk.state.image.value)
    case None => r := Err(Schema);
    case Some(c) =>
      if disk.state.log.NoFile? && !walEnabled {
        var m := new HDF5Memory(config, disk, null, c.rows, c.side, true);
        return Ok(m);
      }
      match ReadLog(disk.state.log)
      case Err(e) => r := Err(e);
      case Ok(entries) =>
        var rows := ReplayInto(c.rows, entries);
        var w := OpenLog(disk);
        var m := new HDF5Memory(config, disk, w.value, rows, c.side, true);
        r := Ok(m);
  }

  /** A writer was interrupted between an entry's body and its chain hash; the store is opened and saves once,
      perhaps after a flush. The save is acknowledged either way. Flushed first, or flushed by the save itself,
      it is durable; otherwise the store cannot be opened any more. */
  method ReopenAndSave(config: Config, disk: Disk, e: Entry, bytes: nat, flushFirst: bool,
                       ghost entries: seq<LogEntry>, ghost c: Contents)
    returns (m: HDF5Memory, flushed: bool)
    requires disk.state.image.Some? && disk.state.image.value.dim == config.dim && Holding(disk.state, c)
    requires disk.state.log.Log? && Left(disk.state.log.pieces, entries) && !Framed(disk.state.log.pieces, entries)
    requires OnlySaves(entries) && disk.state.log.count <= |entries|
    modifies disk
    ensures m.disk == disk && m.rows == Replay(c.rows, entries) + [NewRow(e)]
    ensures !flushFirst ==> (flushed <==> old(disk.state.log.count) + 1 > config.walMax)
    ensures !flushFirst && !flushed ==> Recover(disk.state) == Err(Integrity)
    ensures flushFirst || flushed ==> (Uniform(m.rows, config.dim) ==> m.Recovers())
  {
    hide Load, Framed, Parse, Left, Replay, Uniform;
    LeftReads(disk.state.log.pieces, entries);
    var r := Open(config, disk, true);
    m := r.value;
    if flushFirst {
      m.FlushWal();
    }
    ghost var before := m.rows;
    var i;
    i, flushed := m.Save(e, bytes);
    UniformPrefix(before, NewRow(e), config.dim);
  }

  lemma UniformPrefix(rows: seq<Row>, row: Row, dim: nat)
    ensures Uniform(rows + [row], dim) ==> Uniform(rows, dim)
  {
    assert forall i :: 0 <= i < |rows| ==> (rows + [row])[i] == rows[i];
    assert rows != [] ==> (rows + [row])[|rows|] == row;
  }
}
