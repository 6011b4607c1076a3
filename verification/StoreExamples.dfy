/** Small stores on which the exact conditions of the durability results fail. */
module StoreExamples {
  import opened Wrappers
  import opened Cache
  import opened WriteAheadLog
  import opened Storage
  import opened Store

  const CONFIG := Config(1, 10, 0.0, 0.98, 0.05)

  const EMPTY := Side([], [])

  function Note(text: string): Entry { Entry(text, [1.0], "", 0.0, "", "key") }

  function NoteRow(text: string): Row { Row(text, [1.0], "", 0.0, "", "key", 0, 1.0) }

  /** Saving a note and then updating it under the same tags leaves one row in memory; the disk gives back both. */
  method UpsertIsRecoveredTwice() returns (m: HDF5Memory)
    ensures m.rows == [NoteRow("new")]
    ensures Recover(m.disk.state) == Ok(Contents([NoteRow("old"), NoteRow("new")], EMPTY))
  {
    hide Recover, Load, Uniform;
    var disk := new Disk(DiskState(None, NoFile));
    var r := Create(CONFIG, disk, true, EMPTY);
    m := r.value;
    var i, flushed := m.Save(Note("old"), 40);
    FindsNote();
    i, flushed := m.SaveOrUpdate(Note("new"), 40);
    assert Logged(Contents([NewRow(Note("old"))], EMPTY), Note("new")).rows
         == [NewRow(Note("old")), NewRow(Note("new"))];
  }

  lemma FindsNote()
    ensures FindByTags([NewRow(Note("old"))], "key") == Some(0)
    ensures [] + [NewRow(Note("old"))] == [NewRow(Note("old"))]
  {
    assert FindFrom([NewRow(Note("old"))], "key", 0) == Some(0);
  }

  /** A store created where an earlier store left one logged save: empty in memory, one row on disk. */
  method StaleLogShows() returns (m: HDF5Memory)
    ensures m.rows == [] && !m.Recovers()
  {
    hide Recover, Load;
    var log := Log(0, [Body(LogEntry.Save(Note("old")), 40), Trailer([LogEntry.Save(Note("old"))])]);
    OneEntryReads();
    var disk := new Disk(DiskState(None, log));
    var r := Create(CONFIG, disk, true, EMPTY);
    m := r.value;
  }

  lemma OneEntryReads()
    ensures var e := LogEntry.Save(Note("old"));
      Parse([Body(e, 40), Trailer([e])], []) == Ok([e]) && Saves([e]) == 1
  {
    var e := LogEntry.Save(Note("old"));
    var pieces := [Body(e, 40), Trailer([e])];
    assert [e][..1] == [e];
    assert Framed(pieces, [e]);
    FramedReads(pieces, [e]);
    assert Saves([e][..0]) == 0;
  }

  /** A writer stopped after the body of its first entry; the next process saves once and the log is refused. */
  method BareBodyIsFatal() returns (m: HDF5Memory)
    ensures m.rows == [NoteRow("new")] && Recover(m.disk.state) == Err(Integrity)
  {
    hide Recover, Parse;
    var pieces := [Body(LogEntry.Save(Note("old")), 40)];
    assert pieces[..0] == [] && Framed(pieces[..0], []);
    var disk := new Disk(DiskState(Some(Build(Contents([], EMPTY), 1)), Log(0, pieces)));
    LoadsIffUniform(Contents([], EMPTY), 1);
    var flushed;
    m, flushed := ReopenAndSave(CONFIG, disk, Note("new"), 40, false, [], Contents([], EMPTY));
    assert [] + [NewRow(Note("new"))] == [NewRow(Note("new"))];
  }
}
