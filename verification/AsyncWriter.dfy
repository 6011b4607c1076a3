/** The background writer: a command queue, a dirty flag local to the writer, and a store behind a
    lock that clients also use directly. Rows are named by numbers; a step is one critical section
    or one reply, so every interleaving of writer and clients is a sequence of events. A row's number
    names one save of it: saving the same text again is another row. */
module AsyncWriter {
  datatype Cmd = Save(rows: set<nat>) | FlushNow | TickSession | Shutdown

  /** How a flush ends: done; failed with the image as it was; failed after the new image was in place. */
  datatype Outcome = Done | Failed | FailedLate

  datatype Pc =
    | Loop
    | Applied(rows: set<nat>, ok: bool)
    | Check
    | FlushDue
    | Answer(ok: bool)
    | TickAnswer(ok: bool)
    | Stopped

  /** `cache` is in memory, `image` in the `.h5` file, `log` in the write-ahead log. `acked` are the rows
      of saves answered Ok, `purged` the rows deleted by request since. */
  datatype State = State(cache: set<nat>, image: set<nat>, log: set<nat>, acked: set<nat>, purged: set<nat>,
                         dirty: bool, pc: Pc, queue: seq<Cmd>)

  datatype Config = Config(useInterval: bool, threshold: nat)

  datatype Event =
    | Send(cmd: Cmd)
    /** The writer saves a command's rows: `part` of them if one failed. A save may flush on its own
        on the way; `wrote` is then the image it wrote, and the log is cut if that flush completed. */
    | TakeSave(part: set<nat>, ok: bool, wrote: set<nat>, flushed: bool, cut: bool)
    | ReplySave
    /** The writer reads the number of pending log entries. */
    | ReadPending(count: nat)
    | ThresholdFlush(outcome: Outcome)
    | TakeFlush(outcome: Outcome)
    | SkipFlush
    | ReplyFlush
    | TakeTick(outcome: Outcome)
    | ReplyTick
    | TakeShutdown
    | Timer(outcome: Outcome)
    /** A client's own locked operation: deletions, compaction, records, searches. */
    | Direct(drop: set<nat>, add: set<nat>, flushes: bool, outcome: Outcome)

  function Flush(s: State, outcome: Outcome): State {
    match outcome
    case Done => s.(image := s.cache, log := {})
    case Failed => s
    case FailedLate => s.(image := s.cache)
  }

  predicate Heads(s: State, cmd: Cmd) { s.pc == Loop && s.queue != [] && s.queue[0] == cmd }

  ghost predicate Enabled(config: Config, s: State, e: Event) {
    match e
    case Send(_) => true
    case TakeSave(part, ok, wrote, flushed, cut) =>
      && s.pc == Loop && s.queue != [] && s.queue[0].Save?
      && part <= s.queue[0].rows && (ok ==> part == s.queue[0].rows)
      && (ok && flushed ==> cut) && (flushed ==> s.cache <= wrote <= s.cache + part)
      && s.queue[0].rows !! s.cache + s.acked + s.purged
    case ReplySave => s.pc.Applied?
    case ReadPending(count) => s.pc == Check && count == |s.log|
    case ThresholdFlush(_) => s.pc == FlushDue
    case TakeFlush(_) => Heads(s, FlushNow) && s.dirty
    case SkipFlush => Heads(s, FlushNow) && !s.dirty
    case ReplyFlush => s.pc.Answer?
    case TakeTick(_) => Heads(s, TickSession)
    case ReplyTick => s.pc.TickAnswer?
    case TakeShutdown => Heads(s, Shutdown)
    case Timer(_) => s.pc == Loop && config.useInterval && s.dirty
    case Direct(drop, add, flushes, _) => add !! s.acked + s.purged && (flushes || (drop == {} && add == {}))
  }

  function Step(config: Config, s: State, e: Event): State
    requires Enabled(config, s, e)
  {
    match e
    case Send(cmd) => s.(queue := s.queue + [cmd])
    case TakeSave(part, ok, wrote, flushed, cut) =>
      s.(queue := s.queue[1..], cache := s.cache + part,
         image := if flushed then wrote else s.image,
         log := if flushed && cut then s.cache + part - wrote else s.log + part,
         pc := Applied(s.queue[0].rows, ok))
    case ReplySave =>
      s.(dirty := s.pc.ok, acked := if s.pc.ok then s.acked + s.pc.rows else s.acked,
         pc := if config.threshold > 0 && s.pc.ok then Check else Loop)
    case ReadPending(count) => s.(pc := if count >= config.threshold then FlushDue else Loop)
    case ThresholdFlush(outcome) => Flush(s, outcome).(dirty := false, pc := Loop)
    case TakeFlush(outcome) =>
      Flush(s, outcome).(queue := s.queue[1..], dirty := !outcome.Done?, pc := Answer(outcome.Done?))
    case SkipFlush => s.(queue := s.queue[1..], pc := Answer(true))
    case ReplyFlush => s.(pc := Loop)
    case TakeTick(outcome) =>
      Flush(s, outcome).(queue := s.queue[1..], dirty := s.dirty && !outcome.Done?, pc := TickAnswer(outcome.Done?))
    case ReplyTick => s.(pc := Loop)
    case TakeShutdown => s.(queue := s.queue[1..], pc := Stopped)
    case Timer(outcome) => Flush(s, outcome).(dirty := false)
    case Direct(drop, add, flushes, outcome) =>
      var t := s.(cache := s.cache - drop + add, purged := s.purged + drop);
      if flushes then Flush(t, outcome) else t
  }

  /** Acknowledged, not deleted since, and not in the image. */
  function Unflushed(s: State): set<nat> { s.acked - s.purged - s.image }

  /** An answer the writer gives when asked to flush is honest when nothing acknowledged is missing. */
  ghost predicate Honest(s: State) { Unflushed(s) == {} }

  ghost predicate Inv(s: State) {
    && s.acked <= s.cache + s.purged
    && (Unflushed(s) != {} ==> s.dirty)
    && (s.pc == Answer(true) || s.pc == TickAnswer(true) ==> Honest(s))
    && (s.pc == Check || s.pc == FlushDue ==> s.dirty)
    && (s.pc.Applied? && s.pc.ok ==> s.pc.rows <= s.cache + s.purged)
  }

  /** The events after which the writer forgets that acknowledged rows still have to be flushed:
      a save that failed, and a threshold or timer flush that failed before its image was in place. */
  ghost predicate Forgets(s: State, e: Event) {
    && Unflushed(s) != {}
    && ((e.ReplySave? && s.pc.Applied? && !s.pc.ok) || ((e.ThresholdFlush? || e.Timer?) && e.outcome == Failed))
  }

  lemma FlushHonest(s: State, outcome: Outcome)
    requires s.acked <= s.cache + s.purged
    ensures outcome != Failed ==> Unflushed(Flush(s, outcome)) == {}
    ensures outcome == Failed ==> Flush(s, outcome) == s
  {
  }

  /** Every event keeps the writer's promise exactly when it is not a forgetting one. */
  lemma StepKeepsIff(config: Config, s: State, e: Event)
    requires Inv(s) && Enabled(config, s, e)
    ensures Inv(Step(config, s, e)) <==> !Forgets(s, e)
  {
    match e
    case ThresholdFlush(outcome) => FlushHonest(s, outcome);
    case TakeFlush(outcome) => FlushHonest(s, outcome);
    case TakeTick(outcome) => FlushHonest(s, outcome);
    case Timer(outcome) => FlushHonest(s, outcome);
    case Direct(drop, add, flushes, outcome) =>
      var t := s.(cache := s.cache - drop + add, purged := s.purged + drop);
      assert t.acked <= t.cache + t.purged && Unflushed(t) <= Unflushed(s);
      FlushHonest(t, outcome);
    case _ =>
  }

  // ---- Runs ---------------------------------------------------------------------------

  ghost predicate Runs(config: Config, s: State, events: seq<Event>)
    decreases |events|
  {
    events == [] || (Enabled(config, s, events[0]) && Runs(config, Step(config, s, events[0]), events[1..]))
  }

  ghost function After(config: Config, s: State, events: seq<Event>): State
    requires Runs(config, s, events)
    decreases |events|
  {
    if events == [] then s else After(config, Step(config, s, events[0]), events[1..])
  }

  /** No save and no flush fails. */
  ghost predicate Succeeds(e: Event) {
    match e
    case TakeSave(_, ok, _, _, _) => ok
    case ThresholdFlush(outcome) => outcome == Done
    case TakeFlush(outcome) => outcome == Done
    case TakeTick(outcome) => outcome == Done
    case Timer(outcome) => outcome == Done
    case Direct(_, _, _, outcome) => outcome == Done
    case _ => true
  }

  ghost predicate AllSucceed(events: seq<Event>) { forall i :: 0 <= i < |events| ==> Succeeds(events[i]) }

  /** A started writer: nothing acknowledged yet; a log may be left over from an earlier process. */
  ghost predicate Init(s: State) {
    && s.acked == {} && s.purged == {} && !s.dirty && s.pc == Loop && s.queue == []
    && s.cache <= s.image + s.log
  }

  ghost predicate NoFailedSave(s: State) { s.pc.Applied? ==> s.pc.ok }

  /** No event of the run is a forgetting one, whatever else may fail in it. */
  ghost predicate NeverForgets(config: Config, s: State, events: seq<Event>)
    requires Runs(config, s, events)
    decreases |events|
  {
    events == [] || (!Forgets(s, events[0]) && NeverForgets(config, Step(config, s, events[0]), events[1..]))
  }

  /** The promise holds at every point of the run. */
  ghost predicate Throughout(config: Config, s: State, events: seq<Event>)
    requires Runs(config, s, events)
    decreases |events|
  {
    Inv(s) && (events == [] || Throughout(config, Step(config, s, events[0]), events[1..]))
  }

  /** Over any run, failures included: the promise is kept throughout exactly when the run never forgets. */
  lemma {:induction false} KeptIffNeverForgets(config: Config, s: State, events: seq<Event>)
    requires Inv(s) && Runs(config, s, events)
    ensures Throughout(config, s, events) <==> NeverForgets(config, s, events)
    ensures NeverForgets(config, s, events) ==> Inv(After(config, s, events))
    decreases |events|
  {
    hide Inv, Forgets, Enabled, Step;
    if events != [] {
      StepKeepsIff(config, s, events[0]);
      var t := Step(config, s, events[0]);
      if Inv(t) {
        KeptIffNeverForgets(config, t, events[1..]);
      } else {
        BrokenAtOnce(config, t, events[1..]);
      }
    }
  }

  lemma BrokenAtOnce(config: Config, s: State, events: seq<Event>)
    requires Runs(config, s, events) && !Inv(s)
    ensures !Throughout(config, s, events)
  {
  }

  /** A run in which no save and no flush fails never forgets. */
  lemma {:induction false} SuccessNeverForgets(config: Config, s: State, events: seq<Event>)
    requires NoFailedSave(s) && Runs(config, s, events) && AllSucceed(events)
    ensures NeverForgets(config, s, events)
    decreases |events|
  {
    if events != [] {
      assert Succeeds(events[0]);
      SuccessNeverForgets(config, Step(config, s, events[0]), events[1..]);
    }
  }

  /** In every interleaving that never forgets, when a flush or a session tick is answered Ok, including a
      flush that was skipped, every save acknowledged by then is in the image or was deleted since. Explicit
      flushes, ticks, clients' own operations and saves may fail on the way. */
  lemma OkFlushIsHonest(config: Config, s: State, events: seq<Event>)
    requires Init(s) && Runs(config, s, events)
    requires NeverForgets(config, s, events) || AllSucceed(events)
    ensures var t := After(config, s, events);
      t.pc == Answer(true) || t.pc == TickAnswer(true) ==> t.acked <= t.image + t.purged
  {
    if AllSucceed(events) {
      SuccessNeverForgets(config, s, events);
    }
    KeptIffNeverForgets(config, s, events);
    var t := After(config, s, events);
    if t.pc == Answer(true) || t.pc == TickAnswer(true) {
      assert Unflushed(t) == {};
      forall row | row in t.acked
        ensures row in t.image + t.purged
      {
        assert row !in Unflushed(t);
      }
    }
  }

  /** Forgetting shows: with nothing else queued, the next flush is skipped and answered Ok over a row
      that was acknowledged and is not in the image. */
  lemma ForgettingShows(config: Config, s: State, e: Event)
    requires Inv(s) && Enabled(config, s, e) && Forgets(s, e) && s.queue == []
    ensures Runs(config, s, [e, Send(FlushNow), SkipFlush])
    ensures After(config, s, [e, Send(FlushNow), SkipFlush]).pc == Answer(true)
    ensures !Honest(After(config, s, [e, Send(FlushNow), SkipFlush]))
  {
    hide Runs, After;
    var t := Step(config, s, e);
    assert t.pc == Loop && !t.dirty && t.queue == [] && Unflushed(t) == Unflushed(s);
    var u := Step(config, t, Send(FlushNow));
    assert u.queue == [FlushNow];
    Three(config, s, e, Send(FlushNow), SkipFlush);
  }

  lemma Three(config: Config, s: State, a: Event, b: Event, c: Event)
    requires Enabled(config, s, a) && Enabled(config, Step(config, s, a), b)
    requires Enabled(config, Step(config, Step(config, s, a), b), c)
    ensures Runs(config, s, [a, b, c])
    ensures After(config, s, [a, b, c]) == Step(config, Step(config, Step(config, s, a), b), c)
  {
    hide Enabled, Step;
    assert [a, b, c][1..] == [b, c] && [b, c][1..] == [c] && [c][1..] == [];
    var t := Step(config, s, a);
    var u := Step(config, t, b);
    assert Runs(config, u, [c]) && After(config, u, [c]) == Step(config, u, c);
    assert Runs(config, t, [b, c]) && After(config, t, [b, c]) == Step(config, u, c);
  }

  lemma {:induction false} RunOn(config: Config, s: State, first: seq<Event>, more: seq<Event>)
    requires Runs(config, s, first) && Runs(config, After(config, s, first), more)
    ensures Runs(config, s, first + more)
    ensures After(config, s, first + more) == After(config, After(config, s, first), more)
    decreases |first|
  {
    if first == [] {
      assert first + more == more;
    } else {
      assert (first + more)[1..] == first[1..] + more;
      RunOn(config, Step(config, s, first[0]), first[1..], more);
    }
  }

  /** One failed save is enough: the next flush is skipped and answered Ok although row 1 was
      acknowledged and is not in the image. */
  lemma FailedSaveHidesPending(config: Config, s: State)
    requires config.threshold == 0 && s == State({}, {}, {}, {}, {}, false, Loop, [])
    ensures var events := [Send(Save({1})), TakeSave({1}, true, {}, false, false), ReplySave]
                        + [Send(Save({2})), TakeSave({}, false, {}, false, false), ReplySave]
                        + [Send(FlushNow), SkipFlush, ReplyFlush];
      Init(s) && Runs(config, s, events) && 1 in Unflushed(After(config, s, events)) && !After(config, s, events).dirty
  {
    hide Runs, After, Enabled, Step, Unflushed;
    var acked := State({1}, {}, {1}, {1}, {}, true, Loop, []);
    var forgot := acked.(dirty := false);
    var first, second := [Send(Save({1})), TakeSave({1}, true, {}, false, false), ReplySave],
                         [Send(Save({2})), TakeSave({}, false, {}, false, false), ReplySave];
    SaveOneRow(config, s);
    FailOneSave(config, acked);
    SkipOneFlush(config, forgot);
    RunOn(config, s, first, second);
    RunOn(config, s, first + second, [Send(FlushNow), SkipFlush, ReplyFlush]);
    assert 1 in Unflushed(forgot) by { RowOneUnflushed(); }
  }

  lemma RowOneUnflushed()
    ensures 1 in Unflushed(State({1}, {}, {1}, {1}, {}, false, Loop, []))
  {
  }

  lemma OneQueued(c: Cmd)
    ensures ([] + [c])[0] == c && ([] + [c])[1..] == []
  {
  }

  lemma SaveOneRow(config: Config, s: State)
    requires config.threshold == 0 && s == State({}, {}, {}, {}, {}, false, Loop, [])
    ensures var events := [Send(Save({1})), TakeSave({1}, true, {}, false, false), ReplySave];
      Runs(config, s, events) && After(config, s, events) == State({1}, {}, {1}, {1}, {}, true, Loop, [])
  {
    hide Runs, After;
    OneQueued(Save({1}));
    Three(config, s, Send(Save({1})), TakeSave({1}, true, {}, false, false), ReplySave);
  }

  lemma FailOneSave(config: Config, s: State)
    requires config.threshold == 0 && s == State({1}, {}, {1}, {1}, {}, true, Loop, [])
    ensures var events := [Send(Save({2})), TakeSave({}, false, {}, false, false), ReplySave];
      Runs(config, s, events) && After(config, s, events) == s.(dirty := false)
  {
    hide Runs, After;
    OneQueued(Save({2}));
    Three(config, s, Send(Save({2})), TakeSave({}, false, {}, false, false), ReplySave);
  }

  lemma SkipOneFlush(config: Config, s: State)
    requires s == State({1}, {}, {1}, {1}, {}, false, Loop, [])
    ensures var events := [Send(FlushNow), SkipFlush, ReplyFlush];
      Runs(config, s, events) && After(config, s, events) == s
  {
    hide Runs, After;
    OneQueued(FlushNow);
    Three(config, s, Send(FlushNow), SkipFlush, ReplyFlush);
  }

  // ---- Pending log entries imply the dirty flag -------------------------------------------

  ghost predicate PendingDirty(s: State) { s.log != {} ==> s.dirty || s.pc.Applied? }

  lemma PendingStep(config: Config, s: State, e: Event)
    requires PendingDirty(s) && NoFailedSave(s) && Enabled(config, s, e) && Succeeds(e)
    ensures PendingDirty(Step(config, s, e)) && NoFailedSave(Step(config, s, e))
  {
  }

  lemma {:induction false} PendingRun(config: Config, s: State, events: seq<Event>)
    requires PendingDirty(s) && NoFailedSave(s) && Runs(config, s, events) && AllSucceed(events)
    ensures PendingDirty(After(config, s, events))
    decreases |events|
  {
    if events != [] {
      assert Succeeds(events[0]);
      PendingStep(config, s, events[0]);
      PendingRun(config, Step(config, s, events[0]), events[1..]);
    }
  }

  ghost predicate AlwaysPendingDirty(config: Config, s: State) {
    forall events :: Runs(config, s, events) && AllSucceed(events) ==>
      var t := After(config, s, events); t.pc == Loop && t.log != {} ==> t.dirty
  }

  /** At every loop head of every run without failures pending log entries imply the dirty flag, exactly
      when the store was not opened with a pending log: the flag starts out false either way. */
  lemma PendingDirtyIffOpenedClean(config: Config, s: State)
    requires Init(s)
    ensures AlwaysPendingDirty(config, s) <==> s.log == {}
  {
    if s.log == {} {
      forall events | Runs(config, s, events) && AllSucceed(events)
        ensures var t := After(config, s, events); t.pc == Loop && t.log != {} ==> t.dirty
      {
        PendingRun(config, s, events);
      }
    } else {
      assert Runs(config, s, []) && AllSucceed([]) && After(config, s, []) == s;
    }
  }

  // ---- The flush threshold -----------------------------------------------------------------

  lemma Two(config: Config, s: State, a: Event, b: Event)
    ensures Runs(config, s, [a, b]) <==> Enabled(config, s, a) && Enabled(config, Step(config, s, a), b)
    ensures Runs(config, s, [a, b]) ==> After(config, s, [a, b]) == Step(config, Step(config, s, a), b)
  {
    hide Enabled, Step;
    assert [a, b][1..] == [b] && [b][1..] == [];
    if Enabled(config, s, a) {
      var t := Step(config, s, a);
      assert Runs(config, t, [b]) <==> Enabled(config, t, b);
      assert Enabled(config, t, b) ==> After(config, t, [b]) == Step(config, t, b);
    }
  }

  lemma NotThree(config: Config, s: State, a: Event, b: Event, c: Event)
    requires Enabled(config, s, a) && Enabled(config, Step(config, s, a), b)
    requires !Enabled(config, Step(config, Step(config, s, a), b), c)
    ensures !Runs(config, s, [a, b, c])
  {
    hide Enabled, Step;
    assert [a, b, c][1..] == [b, c] && [b, c][1..] == [c] && [c][1..] == [];
    var t := Step(config, s, a);
    var u := Step(config, t, b);
    assert !Runs(config, u, [c]);
    assert !Runs(config, t, [b, c]);
  }

  /** After an acknowledged save the writer flushes exactly when at least `threshold` entries are pending. Then
      the image is the cache and the log is empty; otherwise nothing is written and the flag stays up. */
  lemma FlushesAtThreshold(config: Config, s: State)
    requires config.threshold > 0 && s.pc.Applied? && s.pc.ok
    ensures Runs(config, s, [ReplySave, ReadPending(|s.log|), ThresholdFlush(Done)]) <==> |s.log| >= config.threshold
    ensures |s.log| >= config.threshold ==>
      After(config, s, [ReplySave, ReadPending(|s.log|), ThresholdFlush(Done)]) ==
        s.(image := s.cache, log := {}, acked := s.acked + s.pc.rows, dirty := false, pc := Loop)
    ensures |s.log| < config.threshold ==>
      && Runs(config, s, [ReplySave, ReadPending(|s.log|)])
      && After(config, s, [ReplySave, ReadPending(|s.log|)]) ==
           s.(acked := s.acked + s.pc.rows, dirty := true, pc := Loop)
  {
    hide Runs, After;
    Two(config, s, ReplySave, ReadPending(|s.log|));
    if |s.log| >= config.threshold {
      Three(config, s, ReplySave, ReadPending(|s.log|), ThresholdFlush(Done));
    } else {
      NotThree(config, s, ReplySave, ReadPending(|s.log|), ThresholdFlush(Done));
    }
  }

  /** No save and no threshold flush fails; explicit flushes, ticks, timer flushes and clients may. */
  ghost predicate SavesSucceed(events: seq<Event>) {
    forall i :: 0 <= i < |events| ==>
      (events[i].TakeSave? ==> events[i].ok) && (events[i].ThresholdFlush? ==> events[i].outcome == Done)
  }

  /** Between two commands fewer than `threshold` entries are pending. */
  ghost predicate FewPending(config: Config, s: State) {
    && (s.pc.Applied? ==> s.pc.ok)
    && (s.pc.Applied? || s.pc.Check? || s.pc.FlushDue? || |s.log| < config.threshold)
  }

  lemma FewPendingStep(config: Config, s: State, e: Event)
    requires config.threshold > 0 && FewPending(config, s) && Enabled(config, s, e) && SavesSucceed([e])
    ensures FewPending(config, Step(config, s, e))
  {
    assert [e][0] == e;
  }

  lemma {:induction false} FewPendingRun(config: Config, s: State, events: seq<Event>)
    requires config.threshold > 0 && FewPending(config, s) && Runs(config, s, events) && SavesSucceed(events)
    ensures FewPending(config, After(config, s, events))
    decreases |events|
  {
    hide Enabled, Step, FewPending;
    if events != [] {
      assert SavesSucceed([events[0]]);
      FewPendingStep(config, s, events[0]);
      FewPendingRun(config, Step(config, s, events[0]), events[1..]);
    }
  }

  /** At every loop head of every run in which no save and no threshold flush fails, fewer than `threshold`
      entries are pending, exactly when that was so when the writer started. */
  lemma PendingBelowThresholdIff(config: Config, s: State)
    requires config.threshold > 0 && Init(s)
    ensures |s.log| < config.threshold <==>
      forall events :: Runs(config, s, events) && SavesSucceed(events) && After(config, s, events).pc == Loop ==>
        |After(config, s, events).log| < config.threshold
  {
    if |s.log| < config.threshold {
      forall events | Runs(config, s, events) && SavesSucceed(events) && After(config, s, events).pc == Loop
        ensures |After(config, s, events).log| < config.threshold
      {
        FewPendingRun(config, s, events);
      }
    } else {
      assert Runs(config, s, []) && SavesSucceed([]) && After(config, s, []) == s;
    }
  }

  // ---- Every command is answered, in order -------------------------------------------------

  datatype Reply = Reply(cmd: Cmd, ok: bool)

  ghost function Sent(events: seq<Event>): seq<Cmd> {
    if events == [] then [] else (if events[0].Send? then [events[0].cmd] else []) + Sent(events[1..])
  }

  /** The answer an event gives. */
  ghost function Gives(s: State, e: Event): seq<Reply> {
    match e
    case ReplySave => if s.pc.Applied? then [Reply(Save(s.pc.rows), s.pc.ok)] else []
    case ReplyFlush => if s.pc.Answer? then [Reply(FlushNow, s.pc.ok)] else []
    case ReplyTick => if s.pc.TickAnswer? then [Reply(TickSession, s.pc.ok)] else []
    case TakeShutdown => [Reply(Shutdown, true)]
    case _ => []
  }

  ghost function Replies(config: Config, s: State, events: seq<Event>): seq<Reply>
    requires Runs(config, s, events)
    decreases |events|
  {
    if events == [] then [] else Gives(s, events[0]) + Replies(config, Step(config, s, events[0]), events[1..])
  }

  /** The command taken and not yet answered, with the answer to come. */
  function InHand(s: State): seq<Reply> {
    match s.pc
    case Applied(rows, ok) => [Reply(Save(rows), ok)]
    case Answer(ok) => [Reply(FlushNow, ok)]
    case TickAnswer(ok) => [Reply(TickSession, ok)]
    case _ => []
  }

  function Commands(replies: seq<Reply>): seq<Cmd> {
    if replies == [] then [] else [replies[0].cmd] + Commands(replies[1..])
  }

  /** The answer that work done by an event deserves: a save that saved everything, a flush that completed, a
      flush not needed. */
  ghost function Earns(s: State, e: Event): seq<Reply> {
    match e
    case TakeSave(_, ok, _, _, _) => if s.queue != [] then [Reply(s.queue[0], ok)] else []
    case TakeFlush(outcome) => [Reply(FlushNow, outcome == Done)]
    case SkipFlush => [Reply(FlushNow, true)]
    case TakeTick(outcome) => [Reply(TickSession, outcome == Done)]
    case TakeShutdown => [Reply(Shutdown, true)]
    case _ => []
  }

  ghost function Earned(config: Config, s: State, events: seq<Event>): seq<Reply>
    requires Runs(config, s, events)
    decreases |events|
  {
    if events == [] then [] else Earns(s, events[0]) + Earned(config, Step(config, s, events[0]), events[1..])
  }

  lemma CommandsConcat(a: seq<Reply>, b: seq<Reply>)
    ensures Commands(a + b) == Commands(a) + Commands(b)
  {
    if a == [] {
      assert a + b == b;
    } else {
      assert (a + b)[1..] == a[1..] + b;
      CommandsConcat(a[1..], b);
    }
  }

  lemma RepliesMove(config: Config, s: State, e: Event)
    requires Enabled(config, s, e)
    ensures InHand(s) + Earns(s, e) == Gives(s, e) + InHand(Step(config, s, e))
  {
  }

  lemma OneCommand(r: Reply)
    ensures Commands([r]) == [r.cmd] && Commands([]) == []
  {
    assert [r][1..] == [];
  }

  lemma OneSent(e: Event)
    ensures Sent([e]) == if e.Send? then [e.cmd] else []
  {
    assert [e][1..] == [];
  }

  lemma QueueMoves(config: Config, s: State, e: Event)
    requires Enabled(config, s, e)
    ensures s.queue + Sent([e]) == Commands(Earns(s, e)) + Step(config, s, e).queue
  {
    hide Commands, Sent;
    OneSent(e);
    var earned := Earns(s, e);
    if earned == [] {
      OneCommand(Reply(Shutdown, true));
    } else {
      OneCommand(earned[0]);
      assert earned == [earned[0]] && s.queue == [s.queue[0]] + s.queue[1..];
    }
  }

  lemma SentHead(events: seq<Event>)
    requires events != []
    ensures Sent(events) == Sent([events[0]]) + Sent(events[1..])
  {
    assert [events[0]][1..] == [];
  }

  lemma {:induction false} EarnedRun(config: Config, s: State, events: seq<Event>)
    requires Runs(config, s, events)
    ensures InHand(s) + Earned(config, s, events) == Replies(config, s, events) + InHand(After(config, s, events))
    ensures s.queue + Sent(events) == Commands(Earned(config, s, events)) + After(config, s, events).queue
    decreases |events|
  {
    hide Enabled, Step, Earns, Gives, InHand, Commands;
    if events == [] {
      NoCommands();
    } else {
      var e := events[0];
      var t, more := Step(config, s, e), events[1..];
      RepliesMove(config, s, e);
      QueueMoves(config, s, e);
      SentHead(events);
      EarnedRun(config, t, more);
      CommandsConcat(Earns(s, e), Earned(config, t, more));
      Swap(InHand(s), Earns(s, e), Gives(s, e), InHand(t), Earned(config, t, more), Replies(config, t, more),
           InHand(After(config, t, more)));
      Swap(s.queue, Sent([e]), Commands(Earns(s, e)), t.queue, Sent(more), Commands(Earned(config, t, more)),
           After(config, t, more).queue);
    }
  }

  lemma NoCommands()
    ensures Commands([]) == []
  {
  }

  /** Two moves along a queue make one. */
  lemma Swap<T>(a: seq<T>, b: seq<T>, c: seq<T>, d: seq<T>, e: seq<T>, f: seq<T>, g: seq<T>)
    requires a + b == c + d && d + e == f + g
    ensures a + (b + e) == c + f + g
  {
    assert a + (b + e) == a + b + e;
    assert c + f + g == c + (f + g);
    assert c + d + e == c + (d + e);
  }

  /** In every interleaving the commands are answered once each, in the order they were sent, and each with what
      the work done for it deserved. */
  lemma AnsweredInOrder(config: Config, s: State, events: seq<Event>)
    requires Init(s) && Runs(config, s, events)
    ensures var t := After(config, s, events);
      && Earned(config, s, events) == Replies(config, s, events) + InHand(t)
      && Sent(events) == Commands(Replies(config, s, events)) + Commands(InHand(t)) + t.queue
  {
    hide Earned, Replies, Runs, After, Commands;
    EarnedRun(config, s, events);
    var t := After(config, s, events);
    assert InHand(s) == [] && s.queue == [];
    assert [] + Earned(config, s, events) == Earned(config, s, events) && [] + Sent(events) == Sent(events);
    CommandsConcat(Replies(config, s, events), InHand(t));
  }

  // ---- What an acknowledged save is worth ---------------------------------------------------

  /** The rows of the saves answered Ok. */
  ghost function RowsAcked(replies: seq<Reply>): set<nat> {
    if replies == [] then {}
    else (if replies[0].cmd.Save? && replies[0].ok then replies[0].cmd.rows else {}) + RowsAcked(replies[1..])
  }

  lemma RowsAckedConcat(a: seq<Reply>, b: seq<Reply>)
    ensures RowsAcked(a + b) == RowsAcked(a) + RowsAcked(b)
  {
    if a == [] {
      assert a + b == b;
    } else {
      assert (a + b)[1..] == a[1..] + b;
      RowsAckedConcat(a[1..], b);
    }
  }

  lemma OneAcked(r: Reply)
    ensures RowsAcked([]) == {} && RowsAcked([r]) == if r.cmd.Save? && r.ok then r.cmd.rows else {}
  {
    assert [r][1..] == [];
  }

  lemma AckedStep(config: Config, s: State, e: Event)
    requires Enabled(config, s, e)
    ensures Step(config, s, e).acked == s.acked + RowsAcked(Gives(s, e))
  {
    hide RowsAcked;
    OneAcked(if Gives(s, e) == [] then Reply(Shutdown, true) else Gives(s, e)[0]);
  }

  lemma {:induction false} AckedExactly(config: Config, s: State, events: seq<Event>)
    requires Runs(config, s, events)
    ensures After(config, s, events).acked == s.acked + RowsAcked(Replies(config, s, events))
    decreases |events|
  {
    hide Enabled, Step, Gives, RowsAcked;
    if events == [] {
      OneAcked(Reply(Shutdown, true));
    } else {
      var t, more := Step(config, s, events[0]), events[1..];
      AckedStep(config, s, events[0]);
      AckedExactly(config, t, more);
      RowsAckedConcat(Gives(s, events[0]), Replies(config, t, more));
    }
  }

  ghost predicate Durable(s: State) {
    && s.acked <= s.cache + s.purged && s.acked <= s.image + s.log + s.purged
    && (s.pc.Applied? && s.pc.ok ==> s.pc.rows <= s.cache + s.purged && s.pc.rows <= s.image + s.log + s.purged)
  }

  lemma DurableStep(config: Config, s: State, e: Event)
    requires Durable(s) && Enabled(config, s, e)
    ensures Durable(Step(config, s, e))
  {
  }

  lemma {:induction false} DurableRun(config: Config, s: State, events: seq<Event>)
    requires Durable(s) && Runs(config, s, events)
    ensures Durable(After(config, s, events))
    decreases |events|
  {
    hide Enabled, Step, Durable;
    if events != [] {
      DurableStep(config, s, events[0]);
      DurableRun(config, Step(config, s, events[0]), events[1..]);
    }
  }

  /** At every point of every run, whatever fails: a row of a save answered Ok is in the image or in the log, or
      was deleted by request since. */
  lemma AckedIsDurable(config: Config, s: State, events: seq<Event>)
    requires Init(s) && Runs(config, s, events)
    ensures var t := After(config, s, events);
      RowsAcked(Replies(config, s, events)) <= t.image + t.log + t.purged
  {
    AckedExactly(config, s, events);
    DurableRun(config, s, events);
  }

  /** What a flush answered Ok has done: written the cache, if the flag was up. A failed one keeps the flag up. */
  lemma FlushRound(config: Config, s: State, outcome: Outcome)
    requires Heads(s, FlushNow)
    ensures Runs(config, s, [TakeFlush(outcome), ReplyFlush]) <==> s.dirty
    ensures Runs(config, s, [SkipFlush, ReplyFlush]) <==> !s.dirty
    ensures s.dirty ==>
      var t := After(config, s, [TakeFlush(outcome), ReplyFlush]);
      && t.pc == Loop && t.queue == s.queue[1..] && (t.dirty <==> outcome != Done) && t.cache == s.cache
      && (outcome == Done ==> t.image == s.cache && t.log == {})
    ensures !s.dirty ==> After(config, s, [SkipFlush, ReplyFlush]) == s.(queue := s.queue[1..])
  {
    hide Runs, After;
    Two(config, s, TakeFlush(outcome), ReplyFlush);
    Two(config, s, SkipFlush, ReplyFlush);
  }
}
