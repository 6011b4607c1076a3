/** Whole runs of a store: after every step the index mirrors the cache and the disk gives the cache back,
    and wherever a crash hits, no saved row that was not deleted since is lost. */
module StoreRuns {
  import opened Wrappers
  import opened Cache
  import opened WriteAheadLog
  import opened Storage
  import opened VectorIndex
  import opened Store
  import Hybrid

  datatype Op =
    | SaveOp(e: Entry, bytes: nat)
    | UpsertOp(e: Entry, bytes: nat)
    | BatchOp(entries: seq<Entry>)
    | DeleteOp(id: nat)
    | CompactOp
    | RecordOp(output: Option<(seq<Entry>, seq<string>)>)
    | PromoteOp(entries: seq<Entry>)
    | TickOp
    | FlushOp
    | SearchOp(engine: Hybrid.Engine, query: Hybrid.Query)
    | SideOp(side: Side)

  /** The approximate vector search answers with nodes of the index. */
  ghost predicate Sane(op: Op) { op.SearchOp? ==> Hybrid.SoundEngine(op.engine) }

  ghost predicate Fits(entries: seq<Entry>, dim: nat) {
    entries != [] ==> dim > 0 && forall i :: 0 <= i < |entries| ==> |entries[i].embedding| == dim
  }

  /** The entries an operation brings in. */
  function Entries(op: Op): seq<Entry> {
    match op
    case SaveOp(e, _) => [e]
    case UpsertOp(e, _) => [e]
    case BatchOp(entries) => entries
    case RecordOp(output) => if output.Some? then output.value.0 else []
    case PromoteOp(entries) => entries
    case _ => []
  }

  ghost function Added(op: Op): set<Row> { LiveBare(NewRows(Entries(op))) }

  /** The live row an operation deletes or replaces, up to its weight. */
  ghost function Dropped(op: Op, rows: seq<Row>): set<Row> {
    match op
    case DeleteOp(id) => if IsLive(rows, id) then {Bare(rows[id])} else {}
    case UpsertOp(e, _) =>
      var found := FindByTags(rows, e.tags);
      if found.Some? then {Bare(rows[found.value])} else {}
    case _ => {}
  }

  /** Whether an operation flushes; `due` says whether one more log entry makes a flush due. */
  predicate Flushes(op: Op, rows: seq<Row>, due: bool) {
    match op
    case SaveOp(_, _) => due
    case UpsertOp(_, _) => due
    case DeleteOp(id) => IsLive(rows, id)
    case CompactOp => |Compacted(rows)| < |rows|
    case RecordOp(output) => output.Some? && output.value != ([], [])
    case PromoteOp(entries) => entries != []
    case _ => true
  }

  /** An upsert that finds its row. */
  predicate Hits(op: Op, rows: seq<Row>) { op.UpsertOp? && FindByTags(rows, op.e.tags).Some? }

  /** Whether an upsert has hit since the last flush. */
  predicate StaleAfter(op: Op, rows: seq<Row>, due: bool, stale: bool) {
    !Flushes(op, rows, due) && (stale || Hits(op, rows))
  }

  // ---- What an operation does to the rows --------------------------------------------------

  /** No live row is lost but the one deleted or replaced, and what came in is there. */
  ghost predicate Keeps(op: Op, before: seq<Row>, after: seq<Row>) {
    LiveBare(before) - Dropped(op, before) + Added(op) <= LiveBare(after)
  }

  lemma NothingAdded()
    ensures NewRows([]) == [] && LiveBare([]) == {}
  {
  }

  lemma KeepsAppend(op: Op, before: seq<Row>)
    ensures Keeps(op, before, before + NewRows(Entries(op)))
  {
    hide LiveBare, Dropped;
    LiveBareGrows(before, NewRows(Entries(op)));
  }

  /** Rows that agree up to their weights have the same live rows. */
  lemma SameLiveBare(before: seq<Row>, after: seq<Row>)
    requires |before| == |after| && forall i :: 0 <= i < |before| ==> Bare(before[i]) == Bare(after[i])
    ensures LiveBare(before) <= LiveBare(after)
  {
    forall x | x in LiveBare(before)
      ensures x in LiveBare(after)
    {
      var r :| r in before && r.tombstone == 0 && Bare(r) == x;
      var i :| 0 <= i < |before| && before[i] == r;
      assert after[i] in after && after[i].tombstone == Bare(after[i]).tombstone == 0;
    }
  }

  /** Changing one row loses at most that one. */
  lemma ReplaceLiveBare(rows: seq<Row>, i: nat, row: Row)
    requires i < |rows|
    ensures LiveBare(rows) - {Bare(rows[i])} <= LiveBare(rows[i := row])
    ensures row.tombstone == 0 ==> Bare(row) in LiveBare(rows[i := row])
    ensures row.tombstone == 0 ==> LiveBare(rows[i := row]) <= LiveBare(rows) + {Bare(row)}
  {
    var after := rows[i := row];
    assert after[i] == row;
    forall x | x in LiveBare(rows) && x != Bare(rows[i])
      ensures x in LiveBare(after)
    {
      var r :| r in rows && r.tombstone == 0 && Bare(r) == x;
      var j :| 0 <= j < |rows| && rows[j] == r;
      assert after[j] == r;
    }
    forall x | x in LiveBare(after) && x != Bare(row)
      ensures x in LiveBare(rows)
    {
      var r :| r in after && r.tombstone == 0 && Bare(r) == x;
      var j :| 0 <= j < |after| && after[j] == r;
      assert rows[j] == r;
    }
  }

  lemma CompactedLiveBare(rows: seq<Row>)
    ensures LiveBare(Compacted(rows)) == LiveBare(rows)
  {
    hide Compacted;
    CompactedIsLive(rows);
  }

  lemma BoostedBare(rows: seq<Row>, hits: seq<nat>, boost: real)
    requires forall i :: 0 <= i < |hits| ==> hits[i] < |rows|
    ensures forall i :: 0 <= i < |rows| ==> Bare(Boosted(rows, hits, boost)[i]) == Bare(rows[i])
  {
    if hits != [] {
      BoostedBare(rows, hits[..|hits| - 1], boost);
    }
  }

  // ---- One step, with everything a crash can leave in it -------------------------------------------

  /** `before` and `after` are the caches around the operation, `was` what the disk gave back before it,
      `pending` the log entries then, `from..to` the disk states it went through and `rest` the disk after it. */
  datatype Step = Step(op: Op, before: Contents, was: Contents, after: Contents, pending: seq<LogEntry>,
                       due: bool, stale: bool, from: nat, to: nat, rest: DiskState)

  predicate IsSave(op: Op) { op.SaveOp? || op.UpsertOp? }

  /** The log at the moment the operation flushes. */
  function LogThen(s: Step): seq<LogEntry> {
    if IsSave(s.op) then s.pending + [LogEntry.Save(s.op.e)] else s.pending
  }

  /** The cache between the two flushes of a deletion that compacts. */
  function Halfway(s: Step): Contents {
    if s.op.DeleteOp? then s.before.(rows := Deleted(s.before.rows, s.op.id)) else s.after
  }

  /** A disk state inside the step. */
  ghost predicate CrashShape(s: Step, d: DiskState) {
    && WriterLog(d.log)
    && (|| Recover(d) == Ok(s.was)
        || (IsSave(s.op) && Recover(d) == Ok(Logged(s.was, s.op.e)))
        || Flushing(d, Halfway(s), s.pending)
        || Flushing(d, s.after, LogThen(s)))
  }

  function StaleNext(s: Step): bool { StaleAfter(s.op, s.before.rows, s.due, s.stale) }

  /** What the disk gives back holds every live row of the cache, and is the cache itself unless an upsert
      has hit since the last flush; then it has more rows. */
  ghost predicate Tracks(was: Contents, c: Contents, stale: bool) {
    && was.side == c.side && LiveBare(c.rows) <= LiveBare(was.rows)
    && (!stale ==> was == c) && (stale ==> |was.rows| > |c.rows|)
  }

  ghost predicate Sound(s: Step, trace: seq<DiskState>) {
    && s.from <= s.to <= |trace| && OnlySaves(s.pending) && Tracks(s.was, s.before, s.stale)
    && Keeps(s.op, s.before.rows, s.after.rows)
    && (s.op.DeleteOp? ==> LiveBare(s.before.rows) - Dropped(s.op, s.before.rows) <= LiveBare(Halfway(s).rows))
    && forall i :: s.from <= i < s.to ==> CrashShape(s, trace[i])
  }

  /** Between this step and the next the disk keeps ahead of the cache. */
  ghost predicate Rests(s: Step) {
    Recover(s.rest).Ok? && Tracks(Recover(s.rest).value, s.after, StaleNext(s))
  }

  ghost predicate Steady(m: HDF5Memory, stale: bool) reads m, m.disk {
    && Uniform(m.rows, m.config.dim) && Recover(m.disk.state).Ok?
    && Tracks(Recover(m.disk.state).value, m.View(), stale)
  }

  lemma UniformGrows(rows: seq<Row>, entries: seq<Entry>, dim: nat)
    requires Uniform(rows, dim) && Fits(entries, dim)
    ensures Uniform(rows + NewRows(entries), dim)
  {
  }

  lemma UniformSame(rows: seq<Row>, after: seq<Row>, dim: nat)
    requires Uniform(rows, dim) && |after| == |rows|
    requires forall i :: 0 <= i < |rows| ==> Bare(rows[i]) == Bare(after[i])
    ensures Uniform(after, dim)
  {
    forall i | 0 <= i < |after|
      ensures |after[i].embedding| == dim
    {
      assert Bare(rows[i]).embedding == Bare(after[i]).embedding;
    }
  }

  lemma UniformReplace(rows: seq<Row>, i: nat, row: Row, dim: nat)
    requires Uniform(rows, dim) && i < |rows| && |row.embedding| == dim
    ensures Uniform(rows[i := row], dim)
  {
  }

  /** A cache that the disk gives back exactly is tracked. */
  lemma ExactTracks(c: Contents)
    ensures Tracks(c, c, false)
  {
  }

  /** Logging a save keeps the disk ahead of the cache. */
  lemma SaveTracks(was: Contents, before: Contents, e: Entry, stale: bool)
    requires Tracks(was, before, stale)
    ensures Tracks(Logged(was, e), before.(rows := before.rows + [NewRow(e)]), stale)
  {
    hide LiveBare;
    LiveBareGrows(was.rows, [NewRow(e)]);
    LiveBareGrows(before.rows, [NewRow(e)]);
  }

  lemma UpdateTracks(was: Contents, before: Contents, i: nat, e: Entry, stale: bool)
    requires Tracks(was, before, stale) && i < |before.rows|
    ensures Tracks(Logged(was, e), before.(rows := before.rows[i := NewRow(e)]), true)
  {
    hide LiveBare;
    LiveBareGrows(was.rows, [NewRow(e)]);
    ReplaceLiveBare(before.rows, i, NewRow(e));
    OneLive(e);
  }

  lemma OneLive(e: Entry)
    ensures LiveBare([NewRow(e)]) == {Bare(NewRow(e))} && NewRows([e]) == [NewRow(e)]
  {
    assert NewRow(e) in [NewRow(e)];
  }

  lemma KeepsUpdate(op: Op, before: seq<Row>)
    requires op.UpsertOp? && FindByTags(before, op.e.tags).Some?
    ensures Keeps(op, before, before[FindByTags(before, op.e.tags).value := NewRow(op.e)])
  {
    hide LiveBare, FindByTags;
    ReplaceLiveBare(before, FindByTags(before, op.e.tags).value, NewRow(op.e));
    OneLive(op.e);
  }

  lemma SaveSound(s: Step, trace: seq<DiskState>, pending: seq<LogEntry>)
    requires IsSave(s.op) && s.from <= s.to == |trace| && OnlySaves(s.pending) && Tracks(s.was, s.before, s.stale)
    requires Keeps(s.op, s.before.rows, s.after.rows)
    requires AllSaving(trace, s.from, s.was, s.op.e, s.after, pending) && (pending == [] || pending == LogThen(s))
    ensures Sound(s, trace)
  {
    hide Recover, Keeps, Tracks, Holding, ReadLog;
    forall i | s.from <= i < s.to
      ensures CrashShape(s, trace[i])
    {
      assert Saving(trace[i], s.was, s.op.e, s.after, pending);
    }
  }

  method PerformSave(m: HDF5Memory, op: Op, ghost stale: bool) returns (ghost s: Step)
    requires m.Valid() && m.Sealed() && IsSave(op)
    modifies m, m.disk, m.wal
    ensures m.Valid() && m.Sealed() && Performed(m, op, stale, s)
    ensures old(Steady(m, stale)) && Fits(Entries(op), m.config.dim) ==>
      Steady(m, StaleAfter(op, old(m.rows), s.due, stale)) && Sound(s, m.disk.trace)
  {
    hide Uniform, Recover, Mirrors, Tracks, Keeps, LiveBare, Fits, AllSaving, Flushing, FindByTags, NewRow, Carries;
    ghost var before, pending, trace := m.View(), m.Pending(), m.disk.trace;
    ghost var due := m.wal == null || m.wal.count + 1 > m.config.walMax;
    ghost var was := if Recover(m.disk.state).Ok? then Recover(m.disk.state).value else before;
    var i, flushed;
    if op.SaveOp? {
      i, flushed := m.Save(op.e, op.bytes);
    } else {
      i, flushed := m.SaveOrUpdate(op.e, op.bytes);
    }
    s := Step(op, before, was, m.View(), pending, due, stale, |trace|, |m.disk.trace|, m.disk.state);
    if old(Steady(m, stale)) && Fits(Entries(op), m.config.dim) {
      SaveStep(op, before, was, m.View(), m.config.dim, stale);
      SaveSound(s, m.disk.trace, m.LogWith(pending, op.e));
      ExactTracks(m.View());
    }
  }

  /** What a save or an upsert does to the rows. */
  ghost predicate SavedRows(op: Op, before: seq<Row>, after: seq<Row>)
    requires IsSave(op)
  {
    after ==
      if Hits(op, before) then before[FindByTags(before, op.e.tags).value := NewRow(op.e)]
      else before + [NewRow(op.e)]
  }

  lemma SaveStep(op: Op, before: Contents, was: Contents, after: Contents, dim: nat, stale: bool)
    requires IsSave(op) && Uniform(before.rows, dim) && Fits(Entries(op), dim) && Tracks(was, before, stale)
    requires SavedRows(op, before.rows, after.rows) && after.side == before.side
    ensures Uniform(after.rows, dim) && Keeps(op, before.rows, after.rows)
    ensures Tracks(Logged(was, op.e), after, stale || Hits(op, before.rows))
  {
    hide Tracks, Keeps, LiveBare, FindByTags;
    OneLive(op.e);
    assert Entries(op)[0] == op.e;
    if Hits(op, before.rows) {
      UniformReplace(before.rows, FindByTags(before.rows, op.e.tags).value, NewRow(op.e), dim);
      KeepsUpdate(op, before.rows);
      UpdateTracks(was, before, FindByTags(before.rows, op.e.tags).value, op.e, stale);
    } else {
      UniformGrows(before.rows, [op.e], dim);
      KeepsAppend(op, before.rows);
      SaveTracks(was, before, op.e, stale);
    }
  }

  /** The step records what happened. */
  twostate predicate Performed(m: HDF5Memory, op: Op, stale: bool, s: Step) reads m, m.disk, m.wal {
    && Extends(m.disk.trace, old(m.disk.trace)) && s.op == op && s.stale == stale
    && s.before == old(m.View()) && s.after == m.View() && s.pending == old(m.Pending())
    && s.due == (m.wal == null || old(m.wal.count) + 1 > m.config.walMax)
    && s.from == |old(m.disk.trace)| && s.to == |m.disk.trace| && s.rest == m.disk.state
    && (old(Recover(m.disk.state)).Ok? ==> old(Recover(m.disk.state)) == Ok(s.was))
  }

  method PerformDelete(m: HDF5Memory, op: Op, ghost stale: bool) returns (ghost s: Step)
    requires m.Valid() && m.Sealed() && op.DeleteOp?
    modifies m, m.disk, m.wal
    ensures m.Valid() && m.Sealed() && Performed(m, op, stale, s)
    ensures old(Steady(m, stale)) ==>
      Steady(m, StaleAfter(op, old(m.rows), s.due, stale)) && Sound(s, m.disk.trace)
  {
    hide Uniform, Recover, Mirrors, Tracks, Keeps, LiveBare, Flushing, Compacted, TombstoneShare;
    ghost var before, pending, trace := m.View(), m.Pending(), m.disk.trace;
    ghost var due := m.wal == null || m.wal.count + 1 > m.config.walMax;
    ghost var was := if Recover(m.disk.state).Ok? then Recover(m.disk.state).value else before;
    var r := m.Delete(op.id);
    s := Step(op, before, was, m.View(), pending, due, stale, |trace|, |m.disk.trace|, m.disk.state);
    if old(Steady(m, stale)) {
      DeleteStep(op, before.rows, m.rows, m.config.dim);
      DeleteSound(s, m.disk.trace);
      ExactTracks(m.View());
    }
  }

  lemma DeleteStep(op: Op, before: seq<Row>, after: seq<Row>, dim: nat)
    requires op.DeleteOp? && Uniform(before, dim)
    requires after == Deleted(before, op.id) || after == Compacted(Deleted(before, op.id))
    ensures Uniform(Deleted(before, op.id), dim) && Uniform(after, dim) && Keeps(op, before, after)
    ensures LiveBare(before) - Dropped(op, before) <= LiveBare(Deleted(before, op.id))
  {
    hide LiveBare, Compacted;
    NothingAdded();
    var gone := Deleted(before, op.id);
    if IsLive(before, op.id) {
      UniformReplace(before, op.id, gone[op.id], dim);
      ReplaceLiveBare(before, op.id, gone[op.id]);
    }
    UniformCompacts(gone, dim);
    CompactedLiveBare(gone);
  }

  lemma DeleteSound(s: Step, trace: seq<DiskState>)
    requires s.op.DeleteOp? && s.from <= s.to == |trace| && OnlySaves(s.pending) && Tracks(s.was, s.before, s.stale)
    requires Keeps(s.op, s.before.rows, s.after.rows)
    requires LiveBare(s.before.rows) - Dropped(s.op, s.before.rows) <= LiveBare(Deleted(s.before.rows, s.op.id))
    requires forall i :: s.from <= i < |trace| ==>
      Flushing(trace[i], Halfway(s), s.pending) || Flushing(trace[i], s.after, [])
    ensures Sound(s, trace)
  {
    hide Recover, Keeps, Tracks, Holding, ReadLog, LiveBare;
    forall i | s.from <= i < s.to
      ensures CrashShape(s, trace[i])
    {
      assert Flushing(trace[i], Halfway(s), s.pending) || Flushing(trace[i], s.after, []);
    }
  }

  /** What the other operations do to the rows. */
  ghost predicate OtherRows(op: Op, before: seq<Row>, after: seq<Row>) {
    || after == before + NewRows(Entries(op))
    || (op.CompactOp? && after == Compacted(before))
    || (Entries(op) == [] && |after| == |before| && forall i :: 0 <= i < |before| ==> Bare(before[i]) == Bare(after[i]))
  }

  lemma OtherStep(op: Op, before: seq<Row>, after: seq<Row>, dim: nat)
    requires !IsSave(op) && !op.DeleteOp? && OtherRows(op, before, after)
    requires Uniform(before, dim) && Fits(Entries(op), dim)
    ensures Uniform(after, dim) && Keeps(op, before, after)
  {
    hide LiveBare, Compacted, Bare;
    if after == before + NewRows(Entries(op)) {
      UniformGrows(before, Entries(op), dim);
      KeepsAppend(op, before);
    } else {
      NothingAdded();
      if op.CompactOp? && after == Compacted(before) {
        UniformCompacts(before, dim);
        CompactedLiveBare(before);
      } else {
        UniformSame(before, after, dim);
        SameLiveBare(before, after);
      }
    }
  }

  lemma FlushSound(s: Step, trace: seq<DiskState>)
    requires !IsSave(s.op) && !s.op.DeleteOp? && s.from <= s.to == |trace| && OnlySaves(s.pending)
    requires Tracks(s.was, s.before, s.stale) && Keeps(s.op, s.before.rows, s.after.rows)
    requires AllFlushing(trace, s.from, s.after, s.pending)
    ensures Sound(s, trace)
  {
    hide Recover, Keeps, Tracks, Holding, ReadLog, WriterLog;
    forall i | s.from <= i < s.to
      ensures CrashShape(s, trace[i])
    {
      assert Flushing(trace[i], s.after, s.pending);
    }
  }

  /** Every operation that is neither a save, nor an upsert, nor a deletion. */
  method Dispatch(m: HDF5Memory, op: Op)
    requires m.Valid() && Sane(op) && !IsSave(op) && !op.DeleteOp?
    modifies m, m.disk, m.wal
    ensures m.Valid() && OtherRows(op, old(m.rows), m.rows)
    ensures Flushes(op, old(m.rows), true) ==> m.Persisted()
    ensures !Flushes(op, old(m.rows), true) ==> m.Untouched() && m.View() == old(m.View())
  {
    hide Uniform, Recover, Mirrors, LiveBare, Flushing, Compacted, Hybrid.SoundEngine, Fresh, Bare;
    NothingAdded();
    match op
    case BatchOp(entries) => var indices := m.SaveBatch(entries);
    case CompactOp => var removed := m.Compact();
    case RecordOp(output) => var r := m.Record(output);
    case PromoteOp(entries) => var n := m.PromoteEphemeral(entries);
    case TickOp =>
      m.TickSession();
      ScaledBare(old(m.rows), m.config.decayFactor);
    case FlushOp => m.FlushWal();
    case SearchOp(engine, q) =>
      var hits, stages := m.HybridSearch(engine, q);
      BoostedBare(old(m.rows), hits, m.config.boost);
    case SideOp(side) => m.SetSide(side);
  }

  lemma ScaledBare(rows: seq<Row>, factor: real)
    ensures forall i :: 0 <= i < |rows| ==> Bare(rows[i]) == Bare(Scaled(rows, factor)[i])
  {
  }

  method PerformOther(m: HDF5Memory, op: Op, ghost stale: bool) returns (ghost s: Step)
    requires m.Valid() && m.Sealed() && Sane(op) && !IsSave(op) && !op.DeleteOp?
    modifies m, m.disk, m.wal
    ensures m.Valid() && m.Sealed() && Performed(m, op, stale, s)
    ensures old(Steady(m, stale)) && Fits(Entries(op), m.config.dim) ==>
      Steady(m, StaleAfter(op, old(m.rows), s.due, stale)) && Sound(s, m.disk.trace)
  {
    hide Uniform, Recover, Mirrors, Tracks, Keeps, LiveBare, Flushing, Sane, OtherRows, Compacted, Fits;
    hide Framed, Left, Parse, WriterLog, CrashShape;
    ghost var before, pending, trace := m.View(), m.Pending(), m.disk.trace;
    ghost var due := m.wal == null || m.wal.count + 1 > m.config.walMax;
    ghost var was := if Recover(m.disk.state).Ok? then Recover(m.disk.state).value else before;
    Dispatch(m, op);
    s := Step(op, before, was, m.View(), pending, due, stale, |trace|, |m.disk.trace|, m.disk.state);
    if old(Steady(m, stale)) && Fits(Entries(op), m.config.dim) {
      OtherStep(op, before.rows, m.rows, m.config.dim);
      FlushSound(s, m.disk.trace);
      ExactTracks(m.View());
    }
  }

  method Perform(m: HDF5Memory, op: Op, ghost stale: bool) returns (ghost s: Step)
    requires m.Valid() && m.Sealed() && Sane(op)
    modifies m, m.disk, m.wal
    ensures m.Valid() && m.Sealed() && Performed(m, op, stale, s)
    ensures old(Steady(m, stale)) && Fits(Entries(op), m.config.dim) ==>
      Steady(m, StaleAfter(op, old(m.rows), s.due, stale)) && Sound(s, m.disk.trace)
  {
    hide Steady, Sound, StaleAfter, Sane;
    if IsSave(op) {
      s := PerformSave(m, op, stale);
    } else if op.DeleteOp? {
      s := PerformDelete(m, op, stale);
    } else {
      s := PerformOther(m, op, stale);
    }
  }

  // ---- Runs ------------------------------------------------------------------------------------------

  function StaleAtEnd(steps: seq<Step>): bool { steps != [] && StaleNext(steps[|steps| - 1]) }

  /** The steps follow one another from one cache and trace length to another, starting without an unflushed hit. */
  ghost predicate Chained(steps: seq<Step>, first: Contents, last: Contents, from: nat, to: nat) {
    && (steps == [] ==> first == last && from == to)
    && (steps != [] ==> steps[0].before == first && steps[0].from == from && !steps[0].stale)
    && (steps != [] ==> steps[|steps| - 1].after == last && steps[|steps| - 1].to == to)
    && (forall k :: 0 <= k < |steps| ==> steps[k].from <= steps[k].to)
    && (forall k :: 0 < k < |steps| ==> steps[k - 1].after == steps[k].before && steps[k - 1].to == steps[k].from)
    && (forall k :: 0 < k < |steps| ==> steps[k].stale == StaleNext(steps[k - 1]))
  }

  ghost predicate AllSound(steps: seq<Step>, trace: seq<DiskState>) {
    forall k :: 0 <= k < |steps| ==> Sound(steps[k], trace) && Rests(steps[k])
  }

  lemma ChainGrows(steps: seq<Step>, s: Step, first: Contents, last: Contents, from: nat, to: nat)
    requires Chained(steps, first, last, from, to) && s.before == last && s.from == to <= s.to
    requires s.stale == StaleAtEnd(steps)
    ensures Chained(steps + [s], first, s.after, from, s.to)
  {
    hide StaleNext;
  }

  lemma SoundLater(s: Step, trace: seq<DiskState>, longer: seq<DiskState>)
    requires Sound(s, trace) && Extends(longer, trace)
    ensures Sound(s, longer)
  {
    hide Tracks, Keeps, CrashShape;
    assert forall i :: 0 <= i < |trace| ==> longer[i] == trace[i];
  }

  lemma AllSoundGrows(steps: seq<Step>, s: Step, trace: seq<DiskState>, longer: seq<DiskState>)
    requires AllSound(steps, trace) && Extends(longer, trace) && Sound(s, longer) && Rests(s)
    ensures AllSound(steps + [s], longer)
  {
    hide Sound, Rests;
    forall k | 0 <= k < |steps|
      ensures Sound(steps[k], longer) && Rests(steps[k])
    {
      SoundLater(steps[k], trace, longer);
    }
  }

  /** In every run the index mirrors the cache. If every embedding brought in has the configured length, then
      every step is sound, and at the end the disk gives the cache back exactly unless an upsert has hit
      since the last flush. */
  method Run(m: HDF5Memory, ops: seq<Op>) returns (ghost steps: seq<Step>)
    requires m.Valid() && m.Sealed() && m.Recovers() && Uniform(m.rows, m.config.dim)
    requires forall k :: 0 <= k < |ops| ==> Sane(ops[k])
    modifies m, m.disk, m.wal
    ensures m.Valid() && m.Sealed() && Extends(m.disk.trace, old(m.disk.trace))
    ensures |steps| == |ops| && forall k :: 0 <= k < |ops| ==> steps[k].op == ops[k]
    ensures Chained(steps, old(m.View()), m.View(), |old(m.disk.trace)|, |m.disk.trace|)
    ensures (forall k :: 0 <= k < |ops| ==> Fits(Entries(ops[k]), m.config.dim)) ==>
      AllSound(steps, m.disk.trace) && Steady(m, StaleAtEnd(steps)) && (m.Recovers() <==> !StaleAtEnd(steps))
  {
    hide Uniform, Recover, Sane, Fits, Sound, Chained, Steady, StaleNext, Rests;
    steps := [];
    ghost var fit := true;
    ChainStarts(m.View(), |m.disk.trace|);
    StartSteady(m);
    for k := 0 to |ops|
      invariant m.Valid() && m.Sealed() && Extends(m.disk.trace, old(m.disk.trace))
      invariant |steps| == k && forall j :: 0 <= j < k ==> steps[j].op == ops[j]
      invariant Chained(steps, old(m.View()), m.View(), |old(m.disk.trace)|, |m.disk.trace|)
      invariant fit <==> forall j :: 0 <= j < k ==> Fits(Entries(ops[j]), m.config.dim)
      invariant fit ==> Steady(m, StaleAtEnd(steps)) && AllSound(steps, m.disk.trace)
    {
      ghost var before, c, trace := steps, m.View(), m.disk.trace;
      ghost var s := Perform(m, ops[k], StaleAtEnd(steps));
      fit := fit && Fits(Entries(ops[k]), m.config.dim);
      ChainGrows(before, s, old(m.View()), c, |old(m.disk.trace)|, |trace|);
      ExtendsChain(old(m.disk.trace), trace, m.disk.trace);
      steps := before + [s];
      StaleOfLast(before, s);
      StaleOf(s);
      if fit {
        SteadyRests(m, s);
        AllSoundGrows(before, s, trace, m.disk.trace);
      }
    }
    if fit {
      SteadyRecovers(m, StaleAtEnd(steps));
    }
  }

  lemma SteadyRests(m: HDF5Memory, s: Step)
    requires Steady(m, StaleNext(s)) && s.rest == m.disk.state && s.after == m.View()
    ensures Rests(s)
  {
  }

  lemma StaleOf(s: Step)
    ensures StaleNext(s) == StaleAfter(s.op, s.before.rows, s.due, s.stale)
  {
  }

  lemma ChainStarts(c: Contents, n: nat)
    ensures Chained([], c, c, n, n)
  {
  }

  lemma StaleOfLast(steps: seq<Step>, s: Step)
    ensures StaleAtEnd(steps + [s]) == StaleAfter(s.op, s.before.rows, s.due, s.stale)
  {
  }

  lemma StartSteady(m: HDF5Memory)
    requires m.Recovers() && Uniform(m.rows, m.config.dim)
    ensures Steady(m, false)
  {
  }

  lemma SteadyRecovers(m: HDF5Memory, stale: bool)
    requires Steady(m, stale)
    ensures m.Recovers() <==> !stale
  {
  }

  // ---- Crashes inside a run ------------------------------------------------------------------------------

  /** Opening gives `c`, or `c` followed by the rows of the log `pending`, or fails on a torn log beside the
      complete image of `c`. */
  ghost predicate Gives(d: DiskState, c: Contents, pending: seq<LogEntry>) {
    || Recover(d) == Ok(c)
    || Recover(d) == Ok(c.(rows := c.rows + Replay([], pending)))
    || (Recover(d) == Err(Io) && d.log.Torn? && Holding(d, c))
  }

  lemma FlushingGives(d: DiskState, c: Contents, pending: seq<LogEntry>)
    requires Flushing(d, c, pending) && OnlySaves(pending)
    ensures Gives(d, c, pending)
  {
    hide Load, Parse, Replay, Recover;
    WindowShape(d, c, pending);
    WindowShape(d, c, []);
  }

  lemma OnlySavesThen(s: Step)
    requires OnlySaves(s.pending)
    ensures OnlySaves(LogThen(s))
  {
  }

  /** Every disk state of a run belongs to one of its steps. */
  lemma {:induction false} StepAt(steps: seq<Step>, first: Contents, last: Contents, from: nat, to: nat, i: nat)
    returns (k: nat)
    requires Chained(steps, first, last, from, to) && from <= i < to
    ensures k < |steps| && steps[k].from <= i < steps[k].to
    decreases |steps|
  {
    k := |steps| - 1;
    while i < steps[k].from
      invariant k < |steps| && i < steps[k].to
      decreases k
    {
      k := k - 1;
    }
  }

  /** A crash anywhere in a sound step: opening gives what the disk gave back before the step (the cache
      before it, unless an upsert has hit since the last flush), or that with the row being saved, or a cache
      of the step, perhaps followed by the rows of the log that was pending, or fails on a torn log beside
      the complete image of a cache of the step. */
  lemma CrashGives(s: Step, trace: seq<DiskState>, i: nat)
    requires Sound(s, trace) && s.from <= i < s.to
    ensures !s.stale ==> s.was == s.before
    ensures Recover(trace[i]) == Ok(s.was) || (IsSave(s.op) && Recover(trace[i]) == Ok(Logged(s.was, s.op.e)))
         || Gives(trace[i], Halfway(s), s.pending) || Gives(trace[i], s.after, LogThen(s))
  {
    hide Gives, Keeps, Flushing, Recover, OnlySaves, WriterLog;
    assert CrashShape(s, trace[i]);
    OnlySavesThen(s);
    if Flushing(trace[i], Halfway(s), s.pending) {
      FlushingGives(trace[i], Halfway(s), s.pending);
    }
    if Flushing(trace[i], s.after, LogThen(s)) {
      FlushingGives(trace[i], s.after, LogThen(s));
    }
  }

  lemma LiveIn(d: DiskState, c: Contents, x: Row)
    requires Recover(d) == Ok(c) && x in LiveBare(c.rows)
    ensures Found(d, x)
  {
  }

  /** No crash inside a step loses a live row that the step does not delete or replace. */
  lemma StepLosesNothing(s: Step, trace: seq<DiskState>, i: nat, x: Row)
    requires Sound(s, trace) && s.from <= i < s.to
    requires x in LiveBare(s.before.rows) && x !in Dropped(s.op, s.before.rows)
    ensures Found(trace[i], x)
  {
    hide Flushing, Recover, OnlySaves, LiveBare, Found, Dropped, WriterLog;
    var d := trace[i];
    assert CrashShape(s, d);
    OnlySavesThen(s);
    if Recover(d) == Ok(s.was) {
      LiveIn(d, s.was, x);
    } else if IsSave(s.op) && Recover(d) == Ok(Logged(s.was, s.op.e)) {
      LiveBareGrows(s.was.rows, [NewRow(s.op.e)]);
      LiveIn(d, Logged(s.was, s.op.e), x);
    } else if Flushing(d, Halfway(s), s.pending) {
      FlushLosesNothing(d, Halfway(s), s.pending, x);
    } else {
      FlushLosesNothing(d, s.after, LogThen(s), x);
    }
  }

  /** A live row stays in the cache until a step deletes or replaces it. */
  lemma {:induction false} RowStays(steps: seq<Step>, trace: seq<DiskState>, first: Contents, last: Contents,
                                    from: nat, to: nat, j: nat, k: nat, x: Row)
    requires Chained(steps, first, last, from, to) && AllSound(steps, trace) && j <= k < |steps|
    requires x in LiveBare(steps[j].before.rows)
    requires forall t :: j <= t < k ==> x !in Dropped(steps[t].op, steps[t].before.rows)
    ensures x in LiveBare(steps[k].before.rows)
    decreases k - j
  {
    hide LiveBare, Dropped, Tracks;
    if j < k {
      assert Sound(steps[j], trace);
      assert steps[j].after == steps[j + 1].before;
      RowStays(steps, trace, first, last, from, to, j + 1, k, x);
    }
  }

  /** The live row that an operation deletes or replaces carries the entry. */
  ghost predicate Removes(op: Op, rows: seq<Row>, e: Entry) {
    || (op.DeleteOp? && op.id < |rows| && Carries(rows[op.id], e))
    || (op.UpsertOp? && FindByTags(rows, op.e.tags).Some? && Carries(rows[FindByTags(rows, op.e.tags).value], e))
  }

  ghost predicate HasLive(rows: seq<Row>, e: Entry) { exists r :: r in rows && Carries(r, e) }

  /** Opening this disk finds a live row that carries the entry, or fails on a torn log beside an image that
      holds one. */
  ghost predicate FoundEntry(d: DiskState, e: Entry) {
    || (Recover(d).Ok? && HasLive(Recover(d).value.rows, e))
    || (d.log.Torn? && d.image.Some? && Load(d.image.value).Some? && HasLive(Load(d.image.value).value.rows, e))
  }

  lemma CarriesBare(rows: seq<Row>, e: Entry)
    ensures Bare(NewRow(e)) in LiveBare(rows) <==> HasLive(rows, e)
  {
    if Bare(NewRow(e)) in LiveBare(rows) {
      var r :| r in rows && r.tombstone == 0 && Bare(r) == Bare(NewRow(e));
      assert Carries(Bare(r), e);
    }
    if HasLive(rows, e) {
      var r :| r in rows && Carries(r, e);
      assert Bare(r) == Bare(NewRow(e));
    }
  }

  lemma FoundCarries(d: DiskState, e: Entry)
    requires Found(d, Bare(NewRow(e)))
    ensures FoundEntry(d, e)
  {
    hide Recover, Load, LiveBare, HasLive;
    if Recover(d).Ok? {
      CarriesBare(Recover(d).value.rows, e);
    }
    if d.image.Some? && Load(d.image.value).Some? {
      CarriesBare(Load(d.image.value).value.rows, e);
    }
  }

  lemma EntryAdded(op: Op, e: Entry)
    requires e in Entries(op)
    ensures Bare(NewRow(e)) in Added(op)
  {
    var i :| 0 <= i < |Entries(op)| && Entries(op)[i] == e;
    assert NewRows(Entries(op))[i] == NewRow(e) && NewRow(e) in NewRows(Entries(op));
  }

  lemma StaysUnlessRemoved(op: Op, rows: seq<Row>, e: Entry)
    requires !Removes(op, rows, e)
    ensures Bare(NewRow(e)) !in Dropped(op, rows)
  {
    hide FindByTags;
  }

  /** In every run: an entry saved in step `j` whose row was not deleted or replaced since is found, field by
      field, in a live row by whoever opens any disk state of any later step `k`; or opening fails on a torn log
      beside an image that holds it. */
  lemma NoSaveLost(steps: seq<Step>, trace: seq<DiskState>, first: Contents, last: Contents, from: nat, to: nat,
                   j: nat, k: nat, i: nat, e: Entry)
    requires Chained(steps, first, last, from, to) && AllSound(steps, trace) && j < k < |steps|
    requires e in Entries(steps[j].op) && steps[k].from <= i < steps[k].to
    requires forall t :: j < t <= k ==> !Removes(steps[t].op, steps[t].before.rows, e)
    ensures FoundEntry(trace[i], e)
  {
    hide LiveBare, Dropped, Added, Found, Tracks, CrashShape, Rests, Removes, NewRow;
    var x := Bare(NewRow(e));
    EntryAdded(steps[j].op, e);
    forall t | j < t <= k
      ensures x !in Dropped(steps[t].op, steps[t].before.rows)
    {
      StaysUnlessRemoved(steps[t].op, steps[t].before.rows, e);
    }
    assert Sound(steps[j], trace) && Sound(steps[k], trace);
    assert steps[j].after == steps[j + 1].before;
    RowStays(steps, trace, first, last, from, to, j + 1, k, x);
    StepLosesNothing(steps[k], trace, i, x);
    FoundCarries(trace[i], e);
  }

  /** The same between two steps, and after the last: an entry saved in step `j` whose row was not deleted or
      replaced since is live in the cache, and found on the disk that step `k` left. */
  lemma NoSaveLostAtRest(steps: seq<Step>, trace: seq<DiskState>, first: Contents, last: Contents, from: nat, to: nat,
                         j: nat, k: nat, e: Entry)
    requires Chained(steps, first, last, from, to) && AllSound(steps, trace) && j <= k < |steps|
    requires e in Entries(steps[j].op)
    requires forall t :: j < t <= k ==> !Removes(steps[t].op, steps[t].before.rows, e)
    ensures HasLive(steps[k].after.rows, e) && FoundEntry(steps[k].rest, e)
  {
    hide LiveBare, Dropped, Added, Found, CrashShape, Recover, Removes, NewRow, HasLive;
    var x := Bare(NewRow(e));
    EntryAdded(steps[j].op, e);
    forall t | j < t <= k
      ensures x !in Dropped(steps[t].op, steps[t].before.rows)
    {
      StaysUnlessRemoved(steps[t].op, steps[t].before.rows, e);
    }
    assert Sound(steps[j], trace) && Sound(steps[k], trace) && Rests(steps[k]);
    if j < k {
      assert steps[j].after == steps[j + 1].before;
      RowStays(steps, trace, first, last, from, to, j + 1, k, x);
    }
    LiveIn(steps[k].rest, Recover(steps[k].rest).value, x);
    FoundCarries(steps[k].rest, e);
    CarriesBare(steps[k].after.rows, e);
  }

  // ---- After a crash ---------------------------------------------------------------------------------------

  /** The log does not end in a bare body. */
  predicate EndsSealed(log: LogFile) {
    log.Log? ==> log.pieces == [] || log.pieces[|log.pieces| - 1].Trailer?
  }

  lemma SealedIffEndsSealed(pieces: seq<Piece>, entries: seq<LogEntry>)
    requires Left(pieces, entries)
    ensures Framed(pieces, entries) <==> pieces == [] || pieces[|pieces| - 1].Trailer?
  {
    if Framed(pieces, entries) && pieces != [] {
      assert pieces[2 * (|entries| - 1) + 1] == Trailer(entries[..|entries|]);
    }
  }

  lemma TornIsRefused(d: DiskState)
    ensures Recover(d).Ok? ==> !d.log.Torn?
  {
  }

  /** Opening any disk state inside a sound step: it opens exactly when the disk can be recovered, as a usable
      store with the recovered contents, sealed exactly when the crash was not behind an entry's body. */
  method Reopen(config: Config, d: DiskState, walEnabled: bool,
                ghost s: Step, ghost trace: seq<DiskState>, ghost i: nat)
    returns (r: Result<HDF5Memory>)
    requires Sound(s, trace) && s.from <= i < s.to && d == trace[i]
    requires d.image.Some? ==> d.image.value.dim == config.dim
    ensures r.Ok? <==> Recover(d).Ok?
    ensures r.Ok? ==> fresh(r.value) && fresh(r.value.disk) && (r.value.wal != null ==> fresh(r.value.wal))
    ensures r.Ok? ==> r.value.Valid() && r.value.Recovers() && Ok(r.value.View()) == Recover(d)
    ensures r.Ok? ==> r.value.config == config && (r.value.Sealed() <==> EndsSealed(d.log))
  {
    hide Recover, Left, Framed, Keeps, Tracks, Mirrors;
    assert CrashShape(s, trace[i]);
    var disk := new Disk(d);
    r := Open(config, disk, walEnabled);
    TornIsRefused(d);
    if r.Ok? && d.log.Log? {
      SealedIffEndsSealed(d.log.pieces, r.value.wal.chain);
    }
  }

  /** Crash, reopen, run on: a store opened on any disk state inside a run carries on like any other, once a log
      that ends in a bare body has been flushed away. */
  method ReopenAndRun(config: Config, d: DiskState, walEnabled: bool, ops: seq<Op>,
                      ghost s: Step, ghost trace: seq<DiskState>, ghost i: nat)
    returns (r: Result<HDF5Memory>, ghost steps: seq<Step>, ghost start: Contents, ghost from: nat)
    requires Sound(s, trace) && s.from <= i < s.to && d == trace[i]
    requires d.image.Some? ==> d.image.value.dim == config.dim
    requires Recover(d).Ok? ==> Uniform(Recover(d).value.rows, config.dim)
    requires forall k :: 0 <= k < |ops| ==> Sane(ops[k])
    ensures r.Ok? <==> Recover(d).Ok?
    ensures r.Ok? ==> Ok(start) == Recover(d) && r.value.Valid() && r.value.Sealed()
    ensures r.Ok? ==> |steps| == |ops| && Chained(steps, start, r.value.View(), from, |r.value.disk.trace|)
    ensures r.Ok? && (forall k :: 0 <= k < |ops| ==> Fits(Entries(ops[k]), config.dim)) ==>
      AllSound(steps, r.value.disk.trace) && Steady(r.value, StaleAtEnd(steps))
  {
    hide Recover, Uniform, Sound, Sane, Fits, Chained, Steady, EndsSealed, AllSound;
    steps, start, from := [], s.before, 0;
    r := Reopen(config, d, walEnabled, s, trace, i);
    if r.Ok? {
      if !EndsSealed(d.log) {
        r.value.FlushWal();
      }
      start, from := r.value.View(), |r.value.disk.trace|;
      steps := Run(r.value, ops);
    }
  }
}
