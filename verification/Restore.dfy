/** Names of the files a snapshot is staged in: never the live file, never another restore's. */
module TempNames {
  function Digits(n: nat): (s: string)
    ensures s != [] && forall i :: 0 <= i < |s| ==> '0' <= s[i] <= '9'
  {
    var d := ('0' as int + n % 10) as char;
    if n < 10 then [d] else Digits(n / 10) + [d]
  }

  function TempName(stem: string, pid: nat, seqNo: nat): string {
    stem + ".restore." + Digits(pid) + "." + Digits(seqNo) + ".tmp"
  }

  lemma {:induction false} DigitsInjective(m: nat, n: nat)
    requires Digits(m) == Digits(n)
    ensures m == n
    decreases m
  {
    var s, t := Digits(m), Digits(n);
    assert s[|s| - 1] == t[|t| - 1];
    if m >= 10 && n >= 10 {
      assert s[..|s| - 1] == Digits(m / 10) && t[..|t| - 1] == Digits(n / 10);
      DigitsInjective(m / 10, n / 10);
    }
  }

  lemma DotAt(a: string, s: string)
    requires forall i :: 0 <= i < |a| ==> a[i] != '.'
    ensures (a + "." + s)[|a|] == '.' && forall i :: 0 <= i < |a| ==> (a + "." + s)[i] != '.'
  {
  }

  /** A dot after digits can be in one place only. */
  lemma FirstDot(a: string, b: string, s: string, t: string)
    requires (forall i :: 0 <= i < |a| ==> a[i] != '.') && (forall i :: 0 <= i < |b| ==> b[i] != '.')
    requires a + "." + s == b + "." + t
    ensures a == b && s == t
  {
    var whole := a + "." + s;
    assert whole[|a|] == '.' && whole[|b|] == '.';
    DotAt(a, s);
    DotAt(b, t);
    assert a == whole[..|a|] && b == whole[..|b|];
    assert s == whole[|a| + 1..] && t == whole[|b| + 1..];
  }

  /** Different processes or different sequence numbers stage in different files. */
  lemma TempNamesDistinct(stem: string, pid: nat, seqNo: nat, pid': nat, seqNo': nat)
    requires TempName(stem, pid, seqNo) == TempName(stem, pid', seqNo')
    ensures pid == pid' && seqNo == seqNo'
  {
    var head := |stem| + 9;
    var s, t := TempName(stem, pid, seqNo), TempName(stem, pid', seqNo');
    assert s[head..] == Digits(pid) + "." + (Digits(seqNo) + ".tmp");
    assert t[head..] == Digits(pid') + "." + (Digits(seqNo') + ".tmp");
    FirstDot(Digits(pid), Digits(pid'), Digits(seqNo) + ".tmp", Digits(seqNo') + ".tmp");
    assert ".tmp" == "." + "tmp";
    assert Digits(seqNo) + ".tmp" == Digits(seqNo) + "." + "tmp";
    assert Digits(seqNo') + ".tmp" == Digits(seqNo') + "." + "tmp";
    FirstDot(Digits(seqNo), Digits(seqNo'), "tmp", "tmp");
    DigitsInjective(pid, pid');
    DigitsInjective(seqNo, seqNo');
  }

  /** A live path is its stem, or its stem and one extension without a dot in it. */
  ghost predicate HasStem(live: string, stem: string) {
    live == stem || exists ext: string :: live == stem + "." + ext && '.' !in ext
  }

  lemma TempIsNotLive(live: string, stem: string, pid: nat, seqNo: nat)
    requires HasStem(live, stem)
    ensures TempName(stem, pid, seqNo) != live
  {
    var temp := TempName(stem, pid, seqNo);
    assert temp[|stem| + 8] == '.' && |temp| > |stem| + 9;
    if live != stem {
      var ext: string :| live == stem + "." + ext && '.' !in ext;
      assert |live| == |temp| ==> live[|stem| + 8] == ext[7] != '.';
    }
  }
}

/** Staged restore of a journaled snapshot over the live file, by any number of restorers at once.
    Every file-system call is one step, and any call may fail. */
module Restore {
  import opened Wrappers
  import opened TempNames

  type Bytes = seq<nat>

  datatype Record = Record(version: nat, root: Bytes, snapshot: string)

  datatype Target = Version(version: nat) | LastKnownGood

  /** What the restorers share and never change; `verify` is the signature gate, `accept` the dataset gate. */
  datatype World = World(live: string, stem: string, journal: seq<Record>, verify: Record -> bool,
                         accept: Record -> (Bytes -> bool))

  // ---- Selection -------------------------------------------------------------------

  function FindVersion(journal: seq<Record>, v: nat): Option<Record> {
    if journal == [] then None else if journal[0].version == v then Some(journal[0]) else FindVersion(journal[1..], v)
  }

  function NewestVerified(journal: seq<Record>, verify: Record -> bool): Option<Record> {
    if journal == [] then None
    else
      var last := journal[|journal| - 1];
      if verify(last) then Some(last) else NewestVerified(journal[..|journal| - 1], verify)
  }

  function SelectRecord(w: World, target: Target): Option<Record> {
    match target
    case LastKnownGood => NewestVerified(w.journal, w.verify)
    case Version(v) =>
      var found := FindVersion(w.journal, v);
      if found.Some? && w.verify(found.value) then found else None
  }

  ghost predicate Ascending(journal: seq<Record>) {
    forall i, j :: 0 <= i < j < |journal| ==> journal[i].version < journal[j].version
  }

  lemma {:induction false} FindVersionExact(journal: seq<Record>, v: nat)
    ensures FindVersion(journal, v).Some? <==> exists r :: r in journal && r.version == v
    ensures FindVersion(journal, v).Some? ==>
      FindVersion(journal, v).value in journal && FindVersion(journal, v).value.version == v
  {
    if journal != [] {
      FindVersionExact(journal[1..], v);
      assert journal == [journal[0]] + journal[1..];
    }
  }

  lemma {:induction false} NewestVerifiedExact(journal: seq<Record>, verify: Record -> bool)
    requires Ascending(journal)
    ensures var found := NewestVerified(journal, verify);
      (found.None? <==> forall r :: r in journal ==> !verify(r)) &&
      (found.Some? ==> found.value in journal && verify(found.value) &&
                       forall r :: r in journal && verify(r) ==> r.version <= found.value.version)
  {
    if journal != [] {
      var before, last := journal[..|journal| - 1], journal[|journal| - 1];
      assert journal == before + [last];
      NewestVerifiedExact(before, verify);
    }
  }

  /** Selection yields a journaled record that passes the signature gate, of the version asked for
      or the newest that passes; it fails exactly when there is none. */
  lemma SelectionGate(w: World, target: Target)
    requires Ascending(w.journal)
    ensures var found := SelectRecord(w, target);
      (found.Some? ==> found.value in w.journal && w.verify(found.value)) &&
      (found.Some? && target.Version? ==> found.value.version == target.version) &&
      (found.Some? && target.LastKnownGood? ==>
         forall r :: r in w.journal && w.verify(r) ==> r.version <= found.value.version) &&
      (found.None? ==> forall r :: r in w.journal && w.verify(r) ==> target.Version? && r.version != target.version)
  {
    match target
    case LastKnownGood => NewestVerifiedExact(w.journal, w.verify);
    case Version(v) =>
      FindVersionExact(w.journal, v);
      if SelectRecord(w, target).None? {
        forall r | r in w.journal && w.verify(r)
          ensures r.version != v
        {
          if FindVersion(w.journal, v).Some? {
            var i :| 0 <= i < |w.journal| && w.journal[i] == r;
            var j :| 0 <= j < |w.journal| && w.journal[j] == FindVersion(w.journal, v).value;
          }
        }
      }
  }

  // ---- The protocol ------------------------------------------------------------------

  datatype Pc =
    Idle | Selected | Named | Copied | Gated | Synced | Cleaning | Restored | Refused | Failed(leftover: bool)

  datatype Restorer = Restorer(pid: nat, pc: Pc, record: Record, seqNo: nat)

  /** `counters` hands out sequence numbers, one counter per process. */
  datatype State = State(files: map<string, Bytes>, counters: map<nat, nat>, restorers: seq<Restorer>)

  datatype Event =
    | Select(i: nat, target: Target)
    | Stat(i: nat, regular: bool)
    /** A failed copy may leave anything or nothing at the temporary name. */
    | Copy(i: nat, ok: bool, partial: Option<Bytes>)
    | Gate(i: nat)
    | Sync(i: nat, ok: bool)
    | Rename(i: nat, ok: bool)
    | Remove(i: nat, ok: bool)

  function Temp(w: World, r: Restorer): string { TempName(w.stem, r.pid, r.seqNo) }

  function Counter(s: State, pid: nat): nat { if pid in s.counters then s.counters[pid] else 0 }

  function Lookup(files: map<string, Bytes>, path: string): Option<Bytes> {
    if path in files then Some(files[path]) else None
  }

  function Move(s: State, i: nat, pc: Pc): State
    requires i < |s.restorers|
  {
    s.(restorers := s.restorers[i := s.restorers[i].(pc := pc)])
  }

  predicate Enabled(w: World, s: State, e: Event) {
    && e.i < |s.restorers|
    && var r := s.restorers[e.i];
    match e
    case Select(_, _) => r.pc == Idle
    case Stat(_, regular) => r.pc == Selected && (regular ==> r.record.snapshot in s.files)
    case Copy(_, ok, _) => r.pc == Named && (ok ==> r.record.snapshot in s.files)
    case Gate(_) => r.pc == Copied
    case Sync(_, _) => r.pc == Gated
    case Rename(_, ok) => r.pc == Synced && (ok ==> Temp(w, r) in s.files)
    case Remove(_, _) => r.pc == Cleaning
  }

  function Step(w: World, s: State, e: Event): State
    requires Enabled(w, s, e)
  {
    var r := s.restorers[e.i];
    var temp := Temp(w, r);
    match e
    case Select(i, target) =>
      var found := SelectRecord(w, target);
      if found.None? then Move(s, i, Refused)
      else s.(restorers := s.restorers[i := r.(pc := Selected, record := found.value)])
    case Stat(i, regular) =>
      if !regular then Move(s, i, Refused)
      else
        var n := Counter(s, r.pid);
        s.(counters := s.counters[r.pid := n + 1], restorers := s.restorers[i := r.(pc := Named, seqNo := n)])
    case Copy(i, ok, partial) =>
      if ok then Move(s, i, Copied).(files := s.files[temp := s.files[r.record.snapshot]])
      else Move(s, i, Cleaning).(files := if partial.Some? then s.files[temp := partial.value] else s.files - {temp})
    case Gate(i) =>
      if temp in s.files && w.accept(r.record)(s.files[temp]) then Move(s, i, Gated) else Move(s, i, Cleaning)
    case Sync(i, ok) => Move(s, i, if ok then Synced else Cleaning)
    case Rename(i, ok) =>
      if ok then Move(s, i, Restored).(files := (s.files - {temp})[w.live := s.files[temp]])
      else Move(s, i, Cleaning)
    case Remove(i, ok) =>
      if ok then Move(s, i, Failed(false)).(files := s.files - {temp}) else Move(s, i, Failed(true))
  }

  // ---- What every state keeps --------------------------------------------------------------

  predicate IsNamed(r: Restorer) { !(r.pc.Idle? || r.pc.Selected? || r.pc.Refused?) }

  /** Sequence numbers in use are below their counters and never shared within a process. */
  ghost predicate NamesUnique(s: State) {
    && (forall i :: 0 <= i < |s.restorers| && IsNamed(s.restorers[i]) ==>
          s.restorers[i].seqNo < Counter(s, s.restorers[i].pid))
    && (forall i, j :: 0 <= i < j < |s.restorers| && IsNamed(s.restorers[i]) && IsNamed(s.restorers[j]) ==>
          s.restorers[i].pid != s.restorers[j].pid || s.restorers[i].seqNo != s.restorers[j].seqNo)
  }

  ghost predicate SignedRecord(w: World, r: Restorer) {
    (IsNamed(r) || r.pc.Selected?) ==> r.record in w.journal && w.verify(r.record)
  }

  /** Past the dataset gate the staged file is the one the gate saw; once settled there is none. */
  ghost predicate Staged(w: World, files: map<string, Bytes>, r: Restorer) {
    && (r.pc.Gated? || r.pc.Synced? ==> Temp(w, r) in files && w.accept(r.record)(files[Temp(w, r)]))
    && (r.pc.Restored? || r.pc == Failed(false) ==> Temp(w, r) !in files)
  }

  /** Bytes that passed the dataset gate of a signed, journaled record. */
  ghost predicate Certified(w: World, b: Bytes) {
    exists r :: r in w.journal && w.verify(r) && w.accept(r)(b)
  }

  ghost predicate LiveGood(w: World, initial: Option<Bytes>, files: map<string, Bytes>) {
    Lookup(files, w.live) == initial || (w.live in files && Certified(w, files[w.live]))
  }

  ghost predicate Inv(w: World, initial: Option<Bytes>, s: State) {
    && NamesUnique(s)
    && (forall i :: 0 <= i < |s.restorers| ==> SignedRecord(w, s.restorers[i]))
    && (forall i :: 0 <= i < |s.restorers| ==> Staged(w, s.files, s.restorers[i]))
    && LiveGood(w, initial, s.files)
  }

  ghost predicate Start(s: State) { forall i :: 0 <= i < |s.restorers| ==> s.restorers[i].pc == Idle }

  ghost predicate Sane(w: World) { Ascending(w.journal) && HasStem(w.live, w.stem) }

  lemma NamesStay(w: World, s: State, e: Event)
    requires NamesUnique(s) && Enabled(w, s, e)
    ensures NamesUnique(Step(w, s, e))
  {
    hide TempName, SelectRecord, NamesUnique;
    if e.Stat? && e.regular {
      NewName(s, e.i);
    } else {
      SameNames(s, Step(w, s, e));
    }
  }

  lemma SameNames(s: State, t: State)
    requires NamesUnique(s) && s.counters == t.counters && |s.restorers| == |t.restorers|
    requires forall i :: 0 <= i < |s.restorers| ==> s.restorers[i].pid == t.restorers[i].pid
    requires forall i :: 0 <= i < |s.restorers| ==> s.restorers[i].seqNo == t.restorers[i].seqNo
    requires forall i :: 0 <= i < |s.restorers| ==> IsNamed(s.restorers[i]) == IsNamed(t.restorers[i])
    ensures NamesUnique(t)
  {
  }

  lemma NewName(s: State, i: nat)
    requires NamesUnique(s) && i < |s.restorers| && !IsNamed(s.restorers[i])
    ensures var r := s.restorers[i];
      var n := Counter(s, r.pid);
      NamesUnique(s.(counters := s.counters[r.pid := n + 1],
                     restorers := s.restorers[i := r.(pc := Named, seqNo := n)]))
  {
  }

  lemma SignedStays(w: World, s: State, e: Event)
    requires Sane(w) && Enabled(w, s, e) && forall i :: 0 <= i < |s.restorers| ==> SignedRecord(w, s.restorers[i])
    ensures var t := Step(w, s, e); forall i :: 0 <= i < |t.restorers| ==> SignedRecord(w, t.restorers[i])
  {
    hide SelectRecord;
    if e.Select? {
      SelectionGate(w, e.target);
    }
  }

  /** A step touches only the live file and the acting restorer's own temporary. */
  lemma StepTouches(w: World, s: State, e: Event, path: string)
    requires Sane(w) && Enabled(w, s, e) && path != Temp(w, s.restorers[e.i])
    ensures !(e.Rename? && e.ok && path == w.live) ==> Lookup(Step(w, s, e).files, path) == Lookup(s.files, path)
  {
  }

  lemma OthersStay(w: World, s: State, e: Event, j: nat)
    requires Sane(w) && NamesUnique(s) && Enabled(w, s, e) && j < |s.restorers|
    requires j != e.i && Staged(w, s.files, s.restorers[j])
    ensures Staged(w, Step(w, s, e).files, s.restorers[j])
  {
    var r, me := s.restorers[j], s.restorers[e.i];
    if IsNamed(r) && IsNamed(me) {
      if Temp(w, r) == Temp(w, me) {
        TempNamesDistinct(w.stem, r.pid, r.seqNo, me.pid, me.seqNo);
      }
      TempIsNotLive(w.live, w.stem, r.pid, r.seqNo);
      StepTouches(w, s, e, Temp(w, r));
    }
  }

  lemma OwnStays(w: World, s: State, e: Event)
    requires Sane(w) && Enabled(w, s, e) && Staged(w, s.files, s.restorers[e.i])
    ensures Staged(w, Step(w, s, e).files, Step(w, s, e).restorers[e.i])
  {
    var r := s.restorers[e.i];
    TempIsNotLive(w.live, w.stem, r.pid, r.seqNo);
  }

  lemma LiveStays(w: World, initial: Option<Bytes>, s: State, e: Event)
    requires Sane(w) && Inv(w, initial, s) && Enabled(w, s, e)
    ensures LiveGood(w, initial, Step(w, s, e).files)
  {
    hide TempName, NamesUnique, SelectRecord;
    var r := s.restorers[e.i];
    assert SignedRecord(w, r) && Staged(w, s.files, r);
    TempIsNotLive(w.live, w.stem, r.pid, r.seqNo);
    if !(e.Rename? && e.ok) {
      StepTouches(w, s, e, w.live);
    }
  }

  lemma StepKeeps(w: World, initial: Option<Bytes>, s: State, e: Event)
    requires Sane(w) && Inv(w, initial, s) && Enabled(w, s, e)
    ensures Inv(w, initial, Step(w, s, e))
  {
    hide NamesUnique, SignedRecord, Staged, LiveGood, SelectRecord;
    NamesStay(w, s, e);
    SignedStays(w, s, e);
    LiveStays(w, initial, s, e);
    var t := Step(w, s, e);
    forall j | 0 <= j < |t.restorers|
      ensures Staged(w, t.files, t.restorers[j])
    {
      if j == e.i {
        OwnStays(w, s, e);
      } else {
        OthersStay(w, s, e, j);
      }
    }
  }

  ghost predicate Runs(w: World, s: State, events: seq<Event>)
    decreases |events|
  {
    events == [] || (Enabled(w, s, events[0]) && Runs(w, Step(w, s, events[0]), events[1..]))
  }

  ghost function After(w: World, s: State, events: seq<Event>): State
    requires Runs(w, s, events)
    decreases |events|
  {
    if events == [] then s else After(w, Step(w, s, events[0]), events[1..])
  }

  lemma {:induction false} RunKeeps(w: World, initial: Option<Bytes>, s: State, events: seq<Event>)
    requires Sane(w) && Inv(w, initial, s) && Runs(w, s, events)
    ensures Inv(w, initial, After(w, s, events))
    decreases |events|
  {
    hide Inv, Sane, Enabled, Step;
    if events != [] {
      StepKeeps(w, initial, s, events[0]);
      RunKeeps(w, initial, Step(w, s, events[0]), events[1..]);
    }
  }

  lemma StartKeeps(w: World, s: State)
    requires Start(s)
    ensures Inv(w, Lookup(s.files, w.live), s)
  {
  }

  /** In every interleaving of any number of restores, whatever fails, the live file holds its initial
      bytes or bytes that passed both gates. */
  lemma LiveAlwaysGood(w: World, s: State, events: seq<Event>)
    requires Sane(w) && Start(s) && Runs(w, s, events)
    ensures LiveGood(w, Lookup(s.files, w.live), After(w, s, events).files)
    ensures var t := After(w, s, events);
      forall i :: 0 <= i < |t.restorers| && (t.restorers[i].pc.Restored? || t.restorers[i].pc == Failed(false)) ==>
        Temp(w, t.restorers[i]) !in t.files
  {
    RunKeeps(w, Lookup(s.files, w.live), s, events);
  }

  /** The live file changes only in the step that completes a restore, and then to the bytes its gate
      accepted; in particular a restore that fails has left it alone. */
  lemma LiveChangesOnlyOnRestore(w: World, initial: Option<Bytes>, s: State, e: Event)
    requires Sane(w) && Inv(w, initial, s) && Enabled(w, s, e)
    requires Lookup(Step(w, s, e).files, w.live) != Lookup(s.files, w.live)
    ensures var t := Step(w, s, e);
      var r := t.restorers[e.i];
      r.pc == Restored && w.verify(r.record) && w.live in t.files && w.accept(r.record)(t.files[w.live])
  {
    hide TempName, SelectRecord;
    var r := s.restorers[e.i];
    assert SignedRecord(w, r) && Staged(w, s.files, r);
    TempIsNotLive(w.live, w.stem, r.pid, r.seqNo);
    StepTouches(w, s, e, w.live);
  }

  // ---- What becomes of each restore -----------------------------------------------------------

  lemma {:induction false} RunOn(w: World, s: State, first: seq<Event>, more: seq<Event>)
    ensures Runs(w, s, first + more) <==> Runs(w, s, first) && Runs(w, After(w, s, first), more)
    ensures Runs(w, s, first + more) ==> After(w, s, first + more) == After(w, After(w, s, first), more)
    decreases |first|
  {
    hide Enabled, Step;
    if first == [] {
      assert first + more == more;
    } else {
      assert (first + more)[1..] == first[1..] + more && (first + more)[0] == first[0];
      if Enabled(w, s, first[0]) {
        RunOn(w, Step(w, s, first[0]), first[1..], more);
      }
    }
  }

  lemma Three(w: World, s: State, a: Event, b: Event, c: Event)
    ensures Runs(w, s, [a, b, c]) <==>
      (Enabled(w, s, a) && Enabled(w, Step(w, s, a), b) && Enabled(w, Step(w, Step(w, s, a), b), c))
    ensures Runs(w, s, [a, b, c]) ==> After(w, s, [a, b, c]) == Step(w, Step(w, Step(w, s, a), b), c)
  {
    hide Enabled, Step;
    assert [a, b, c][1..] == [b, c] && [b, c][1..] == [c] && [c][1..] == [];
    if Enabled(w, s, a) && Enabled(w, Step(w, s, a), b) {
      var u := Step(w, Step(w, s, a), b);
      assert Runs(w, u, [c]) <==> Enabled(w, u, c);
      assert Enabled(w, u, c) ==> After(w, u, [c]) == Step(w, u, c);
    }
  }

  /** The record a target asks for: signed, journaled, and of the version named or the newest such. */
  ghost predicate AsksFor(w: World, target: Target, r: Record) {
    && r in w.journal && w.verify(r)
    && (target.Version? ==> r.version == target.version)
    && (target.LastKnownGood? ==> forall q :: q in w.journal && w.verify(q) ==> q.version <= r.version)
  }

  lemma VersionsDiffer(w: World, a: Record, b: Record)
    requires Ascending(w.journal) && a in w.journal && b in w.journal && a.version == b.version
    ensures a == b
  {
    var i :| 0 <= i < |w.journal| && w.journal[i] == a;
    var j :| 0 <= j < |w.journal| && w.journal[j] == b;
  }

  lemma SelectsExactly(w: World, target: Target, r: Record)
    requires Ascending(w.journal)
    ensures SelectRecord(w, target) == Some(r) <==> AsksFor(w, target, r)
  {
    hide SelectRecord, Ascending;
    SelectionGate(w, target);
    if AsksFor(w, target, r) {
      VersionsDiffer(w, SelectRecord(w, target).value, r);
    }
  }

  lemma SelectsNothing(w: World, s: State, i: nat, target: Target)
    requires Sane(w) && i < |s.restorers| && s.restorers[i].pc == Idle && forall r :: !AsksFor(w, target, r)
    ensures Step(w, s, Select(i, target)) == Move(s, i, Refused)
  {
    hide SelectRecord, AsksFor;
    var found := SelectRecord(w, target);
    if found.Some? {
      SelectsExactly(w, target, found.value);
    }
  }

  function StageCalls(i: nat, target: Target): seq<Event> { [Select(i, target), Stat(i, true), Copy(i, true, None)] }

  function PlaceCalls(i: nat): seq<Event> { [Gate(i), Sync(i, true), Rename(i, true)] }

  lemma SnapshotStaged(w: World, s: State, i: nat, target: Target, r: Record)
    requires Sane(w) && i < |s.restorers| && s.restorers[i].pc == Idle && AsksFor(w, target, r)
    ensures Runs(w, s, StageCalls(i, target)) <==> r.snapshot in s.files
    ensures Runs(w, s, StageCalls(i, target)) ==>
      var t := After(w, s, StageCalls(i, target));
      && |t.restorers| == |s.restorers| && t.restorers[i].pc == Copied && t.restorers[i].record == r
      && Lookup(t.files, Temp(w, t.restorers[i])) == Some(s.files[r.snapshot])
  {
    hide SelectRecord, TempName, AsksFor, Runs, After;
    SelectsExactly(w, target, r);
    Three(w, s, Select(i, target), Stat(i, true), Copy(i, true, None));
  }

  lemma StagedPlaced(w: World, s: State, i: nat, b: Bytes)
    requires Sane(w) && i < |s.restorers| && s.restorers[i].pc == Copied
    requires Lookup(s.files, Temp(w, s.restorers[i])) == Some(b)
    ensures Runs(w, s, PlaceCalls(i)) <==> w.accept(s.restorers[i].record)(b)
    ensures Runs(w, s, PlaceCalls(i)) ==>
      var t := After(w, s, PlaceCalls(i));
      |t.restorers| == |s.restorers| && t.restorers[i].pc == Restored && Lookup(t.files, w.live) == Some(b)
  {
    hide TempName, Runs, After;
    Three(w, s, Gate(i), Sync(i, true), Rename(i, true));
  }

  /** A restore in which no call fails can run to its end exactly when the snapshot of the record asked for is
      there and the dataset gate accepts its bytes; it then ends with these bytes as the live file. */
  lemma GoodRestoreCompletes(w: World, s: State, i: nat, target: Target, r: Record)
    requires Sane(w) && i < |s.restorers| && s.restorers[i].pc == Idle && AsksFor(w, target, r)
    ensures Runs(w, s, StageCalls(i, target) + PlaceCalls(i)) <==>
      r.snapshot in s.files && w.accept(r)(s.files[r.snapshot])
    ensures Runs(w, s, StageCalls(i, target) + PlaceCalls(i)) ==>
      var t := After(w, s, StageCalls(i, target) + PlaceCalls(i));
      |t.restorers| == |s.restorers| && t.restorers[i].pc == Restored
      && Lookup(t.files, w.live) == Some(s.files[r.snapshot])
  {
    hide AsksFor, Runs, After, Sane, TempName, StageCalls, PlaceCalls;
    RunOn(w, s, StageCalls(i, target), PlaceCalls(i));
    SnapshotStaged(w, s, i, target, r);
    if r.snapshot in s.files {
      StagedPlaced(w, After(w, s, StageCalls(i, target)), i, s.files[r.snapshot]);
    }
  }

  lemma Two(w: World, s: State, a: Event, b: Event)
    ensures Runs(w, s, [a, b]) <==> Enabled(w, s, a) && Enabled(w, Step(w, s, a), b)
    ensures Runs(w, s, [a, b]) ==> After(w, s, [a, b]) == Step(w, Step(w, s, a), b)
  {
    hide Enabled, Step;
    assert [a, b][1..] == [b] && [b][1..] == [];
    if Enabled(w, s, a) {
      var t := Step(w, s, a);
      assert Runs(w, t, [b]) <==> Enabled(w, t, b);
      assert Enabled(w, t, b) ==> After(w, t, [b]) == Step(w, t, b);
    }
  }

  /** A staged file that the dataset gate refuses is removed and the live file left as it was; the restorer knows
      whether the removal worked. */
  lemma RefusedIsRemoved(w: World, s: State, i: nat, b: Bytes, removed: bool)
    requires Sane(w) && i < |s.restorers| && s.restorers[i].pc == Copied
    requires Lookup(s.files, Temp(w, s.restorers[i])) == Some(b)
    ensures Runs(w, s, [Gate(i), Remove(i, removed)]) <==> !w.accept(s.restorers[i].record)(b)
    ensures Runs(w, s, [Gate(i), Remove(i, removed)]) ==>
      var t := After(w, s, [Gate(i), Remove(i, removed)]);
      && |t.restorers| == |s.restorers| && t.restorers[i].pc == Failed(!removed)
      && t.files == if removed then s.files - {Temp(w, s.restorers[i])} else s.files
    ensures Runs(w, s, [Gate(i), Remove(i, removed)]) ==>
      Lookup(After(w, s, [Gate(i), Remove(i, removed)]).files, w.live) == Lookup(s.files, w.live)
  {
    hide TempName, Runs, After;
    Two(w, s, Gate(i), Remove(i, removed));
    TempIsNotLive(w.live, w.stem, s.restorers[i].pid, s.restorers[i].seqNo);
  }

  // ---- Why a restore fails -------------------------------------------------------------------

  /** The bytes restorer `i` has copied, after an event. */
  ghost function CopiedAfter(w: World, s: State, e: Event, i: nat, copied: Option<Bytes>): Option<Bytes>
    requires Enabled(w, s, e)
  {
    if e.Copy? && e.i == i && e.ok then Some(s.files[s.restorers[i].record.snapshot]) else copied
  }

  /** A call of restorer `i` that fails, or its dataset gate refusing the bytes it copied. */
  ghost predicate Fails(w: World, s: State, e: Event, i: nat, copied: Option<Bytes>)
    requires Enabled(w, s, e)
  {
    && e.i == i
    && match e
       case Copy(_, ok, _) => !ok
       case Sync(_, ok) => !ok
       case Rename(_, ok) => !ok
       case Gate(_) => !(copied.Some? && w.accept(s.restorers[i].record)(copied.value))
       case _ => false
  }

  /** Some event of the run is a failure of restorer `i`. */
  ghost predicate EverFails(w: World, s: State, events: seq<Event>, i: nat, copied: Option<Bytes>)
    requires Runs(w, s, events)
    decreases |events|
  {
    events != [] &&
    (Fails(w, s, events[0], i, copied) ||
     EverFails(w, Step(w, s, events[0]), events[1..], i, CopiedAfter(w, s, events[0], i, copied)))
  }

  predicate GaveUp(pc: Pc) { pc.Cleaning? || pc.Failed? }

  /** Until it is placed or removed, the staged file is what restorer `i` copied. */
  ghost predicate HoldsCopy(w: World, s: State, i: nat, copied: Option<Bytes>) {
    && i < |s.restorers|
    && var r := s.restorers[i];
    (r.pc.Copied? || r.pc.Gated? || r.pc.Synced? ==> copied.Some? && Lookup(s.files, Temp(w, r)) == copied)
  }

  lemma OwnCopyStays(w: World, s: State, e: Event, i: nat, copied: Option<Bytes>)
    requires Sane(w) && HoldsCopy(w, s, i, copied) && Enabled(w, s, e) && e.i == i
    ensures HoldsCopy(w, Step(w, s, e), i, CopiedAfter(w, s, e, i, copied))
    ensures GaveUp(Step(w, s, e).restorers[i].pc) <==> GaveUp(s.restorers[i].pc) || Fails(w, s, e, i, copied)
  {
    hide SelectRecord, TempName;
  }

  lemma OtherCopyStays(w: World, s: State, e: Event, i: nat, copied: Option<Bytes>)
    requires Sane(w) && NamesUnique(s) && HoldsCopy(w, s, i, copied) && Enabled(w, s, e) && e.i != i
    ensures HoldsCopy(w, Step(w, s, e), i, copied) && Step(w, s, e).restorers[i] == s.restorers[i]
  {
    hide SelectRecord, TempName, NamesUnique;
    var r, me := s.restorers[i], s.restorers[e.i];
    TempIsNotLive(w.live, w.stem, r.pid, r.seqNo);
    if IsNamed(r) && IsNamed(me) {
      TempsApart(w, s, i, e.i);
      StepTouches(w, s, e, Temp(w, r));
    }
  }

  lemma TempsApart(w: World, s: State, i: nat, j: nat)
    requires NamesUnique(s) && i < |s.restorers| && j < |s.restorers| && i != j
    requires IsNamed(s.restorers[i]) && IsNamed(s.restorers[j])
    ensures Temp(w, s.restorers[i]) != Temp(w, s.restorers[j])
  {
    hide TempName;
    var a, b := s.restorers[i], s.restorers[j];
    if Temp(w, a) == Temp(w, b) {
      TempNamesDistinct(w.stem, a.pid, a.seqNo, b.pid, b.seqNo);
    }
  }

  lemma FateStep(w: World, s: State, e: Event, i: nat, copied: Option<Bytes>)
    requires Sane(w) && NamesUnique(s) && HoldsCopy(w, s, i, copied) && Enabled(w, s, e)
    ensures NamesUnique(Step(w, s, e)) && HoldsCopy(w, Step(w, s, e), i, CopiedAfter(w, s, e, i, copied))
    ensures GaveUp(Step(w, s, e).restorers[i].pc) <==> GaveUp(s.restorers[i].pc) || Fails(w, s, e, i, copied)
  {
    hide Step, NamesUnique, HoldsCopy, Enabled, GaveUp;
    NamesStay(w, s, e);
    if e.i == i {
      OwnCopyStays(w, s, e, i, copied);
    } else {
      OtherCopyStays(w, s, e, i, copied);
    }
  }

  lemma {:induction false} FateOfRun(w: World, s: State, events: seq<Event>, i: nat, copied: Option<Bytes>)
    requires Sane(w) && NamesUnique(s) && HoldsCopy(w, s, i, copied) && Runs(w, s, events)
    ensures i < |After(w, s, events).restorers|
    ensures GaveUp(After(w, s, events).restorers[i].pc) <==>
      GaveUp(s.restorers[i].pc) || EverFails(w, s, events, i, copied)
    decreases |events|
  {
    hide Step, NamesUnique, Enabled, GaveUp, Fails, CopiedAfter, Sane;
    if events != [] {
      FateStep(w, s, events[0], i, copied);
      FateOfRun(w, Step(w, s, events[0]), events[1..], i, CopiedAfter(w, s, events[0], i, copied));
    }
  }

  /** In every interleaving, a restore gives up exactly when one of its own calls failed or its dataset gate
      refused the bytes it had copied, whatever the other restorers did meanwhile. */
  lemma GivesUpIffFailed(w: World, s: State, events: seq<Event>, i: nat)
    requires Sane(w) && Start(s) && Runs(w, s, events) && i < |s.restorers|
    ensures i < |After(w, s, events).restorers|
    ensures GaveUp(After(w, s, events).restorers[i].pc) <==> EverFails(w, s, events, i, None)
  {
    hide TempName, EverFails;
    FateOfRun(w, s, events, i, None);
  }

  // ---- What the live file holds --------------------------------------------------------------

  ghost function CopiesAfter(w: World, s: State, e: Event, copies: seq<Option<Bytes>>): (r: seq<Option<Bytes>>)
    requires Enabled(w, s, e) && |copies| == |s.restorers|
    ensures |r| == |copies|
  {
    copies[e.i := CopiedAfter(w, s, e, e.i, copies[e.i])]
  }

  /** The bytes copied by the last restore of the run to complete; `live` if none did. */
  ghost function LastPlaced(w: World, s: State, events: seq<Event>, copies: seq<Option<Bytes>>, live: Option<Bytes>)
    : Option<Bytes>
    requires Runs(w, s, events) && |copies| == |s.restorers|
    decreases |events|
  {
    if events == [] then live
    else
      var e := events[0];
      LastPlaced(w, Step(w, s, e), events[1..], CopiesAfter(w, s, e, copies),
                 if e.Rename? && e.ok then copies[e.i] else live)
  }

  ghost predicate HoldsCopies(w: World, s: State, copies: seq<Option<Bytes>>) {
    |copies| == |s.restorers| && forall i :: 0 <= i < |copies| ==> HoldsCopy(w, s, i, copies[i])
  }

  lemma CopiesStep(w: World, s: State, e: Event, copies: seq<Option<Bytes>>)
    requires Sane(w) && NamesUnique(s) && HoldsCopies(w, s, copies) && Enabled(w, s, e)
    ensures HoldsCopies(w, Step(w, s, e), CopiesAfter(w, s, e, copies))
  {
    hide HoldsCopy, NamesUnique, Fails, GaveUp, TempName, SelectRecord;
    var t, after := Step(w, s, e), CopiesAfter(w, s, e, copies);
    forall i | 0 <= i < |after|
      ensures HoldsCopy(w, t, i, after[i])
    {
      FateStep(w, s, e, i, copies[i]);
    }
  }

  lemma LiveStep(w: World, s: State, e: Event, copies: seq<Option<Bytes>>)
    requires Sane(w) && HoldsCopies(w, s, copies) && Enabled(w, s, e)
    ensures Lookup(Step(w, s, e).files, w.live) ==
      if e.Rename? && e.ok then copies[e.i] else Lookup(s.files, w.live)
  {
    hide TempName, SelectRecord;
    var r := s.restorers[e.i];
    assert HoldsCopy(w, s, e.i, copies[e.i]);
    TempIsNotLive(w.live, w.stem, r.pid, r.seqNo);
    StepTouches(w, s, e, w.live);
  }

  lemma {:induction false} LiveRun(w: World, s: State, events: seq<Event>, copies: seq<Option<Bytes>>)
    requires Sane(w) && NamesUnique(s) && HoldsCopies(w, s, copies) && Runs(w, s, events)
    ensures Lookup(After(w, s, events).files, w.live) ==
      LastPlaced(w, s, events, copies, Lookup(s.files, w.live))
    decreases |events|
  {
    hide Step, NamesUnique, Enabled, HoldsCopy, CopiesAfter, Sane;
    if events != [] {
      NamesStay(w, s, events[0]);
      CopiesStep(w, s, events[0], copies);
      LiveStep(w, s, events[0], copies);
      LiveRun(w, Step(w, s, events[0]), events[1..], CopiesAfter(w, s, events[0], copies));
    }
  }

  /** In every interleaving the live file is exactly what the last restore to complete had copied from its
      snapshot, or as it was in the beginning. */
  lemma LiveIsLastPlaced(w: World, s: State, events: seq<Event>)
    requires Sane(w) && Start(s) && Runs(w, s, events)
    ensures Lookup(After(w, s, events).files, w.live) ==
      LastPlaced(w, s, events, seq(|s.restorers|, _ => None), Lookup(s.files, w.live))
  {
    hide TempName, LastPlaced;
    LiveRun(w, s, events, seq(|s.restorers|, _ => None));
  }

  // ---- Every restore comes to an end --------------------------------------------------------

  predicate Settled(pc: Pc) { pc.Restored? || pc.Refused? || pc.Failed? }

  /** A bound on the calls still to come. */
  function CallsLeft(pc: Pc): nat {
    match pc
    case Idle => 7
    case Selected => 6
    case Named => 5
    case Copied => 4
    case Gated => 3
    case Synced => 2
    case Cleaning => 1
    case _ => 0
  }

  function CallsOf(events: seq<Event>, i: nat): nat {
    if events == [] then 0 else (if events[0].i == i then 1 else 0) + CallsOf(events[1..], i)
  }

  lemma CallStep(w: World, s: State, e: Event, i: nat)
    requires Enabled(w, s, e) && i < |s.restorers|
    ensures |Step(w, s, e).restorers| == |s.restorers|
    ensures (if e.i == i then 1 else 0) + CallsLeft(Step(w, s, e).restorers[i].pc) <= CallsLeft(s.restorers[i].pc)
  {
    hide SelectRecord, TempName;
  }

  lemma {:induction false} CallsBounded(w: World, s: State, events: seq<Event>, i: nat)
    requires Runs(w, s, events) && i < |s.restorers|
    ensures i < |After(w, s, events).restorers|
    ensures CallsOf(events, i) + CallsLeft(After(w, s, events).restorers[i].pc) <= CallsLeft(s.restorers[i].pc)
    decreases |events|
  {
    hide Step, Enabled, CallsLeft;
    if events != [] {
      CallStep(w, s, events[0], i);
      CallsBounded(w, Step(w, s, events[0]), events[1..], i);
    }
  }

  /** The next call of a restore, succeeding. */
  function NextCall(r: Restorer, i: nat, target: Target): Event {
    match r.pc
    case Idle => Select(i, target)
    case Selected => Stat(i, true)
    case Named => Copy(i, true, None)
    case Copied => Gate(i)
    case Gated => Sync(i, true)
    case Synced => Rename(i, true)
    case _ => Remove(i, true)
  }

  lemma NextCallEnabled(w: World, s: State, i: nat, target: Target)
    requires i < |s.restorers| && !Settled(s.restorers[i].pc) && Staged(w, s.files, s.restorers[i])
    requires s.restorers[i].pc.Selected? || s.restorers[i].pc.Named? ==> s.restorers[i].record.snapshot in s.files
    ensures Enabled(w, s, NextCall(s.restorers[i], i, target))
  {
    hide TempName;
  }

  /** No restore takes more than seven calls, and none is stuck before its end: in every reachable state the next
      call of one that is not settled can succeed, given that the snapshot is still there while it is needed. */
  lemma RestoreSettles(w: World, s: State, events: seq<Event>, i: nat, target: Target)
    requires Sane(w) && Start(s) && Runs(w, s, events) && i < |s.restorers|
    ensures CallsOf(events, i) <= 7
    ensures var t := After(w, s, events);
      && i < |t.restorers|
      && (CallsOf(events, i) == 7 ==> Settled(t.restorers[i].pc))
      && (!Settled(t.restorers[i].pc) && (t.restorers[i].pc.Selected? || t.restorers[i].pc.Named? ==>
            t.restorers[i].record.snapshot in t.files) ==>
          Enabled(w, t, NextCall(t.restorers[i], i, target)))
  {
    hide TempName, NextCall, Enabled, Staged, Step, LiveGood, NamesUnique, SignedRecord;
    CallsBounded(w, s, events, i);
    StartKeeps(w, s);
    RunKeeps(w, Lookup(s.files, w.live), s, events);
    var t := After(w, s, events);
    var r := t.restorers[i];
    if !Settled(r.pc) && (r.pc.Selected? || r.pc.Named? ==> r.record.snapshot in t.files) {
      NextCallEnabled(w, t, i, target);
    }
  }
}
