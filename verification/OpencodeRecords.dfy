/**
 * What the steps of the run protocol leave behind, said of whole histories and in terms of the
 * records alone: which submissions are taken, what each course of a run writes into its row and
 * trace, that other runs' steps have no part in it, and what a restart does to all of them.
 */
module OpencodeRecords {
  import opened Wrappers
  import opened Counting
  import opened OpencodeRuns
  import opened OpencodeTelemetry
  import opened OpencodeProtocol
  import opened OpencodeInvariant
  import opened OpencodeSchedules
  import opened OpencodePromises

  // ----- which submissions are taken -----

  /** The step sets the intake switch, to `paused`. */
  predicate Switches(e: Step, paused: bool) {
    e == SetIntake(paused) || (e.Boot? && e.pausedOnBoot == paused)
  }

  predicate NoSwitch(es: seq<Step>, paused: bool) {
    forall i :: 0 <= i < |es| ==> !Switches(es[i], paused)
  }

  lemma {:induction false} IntakeStaysShut(before: State, es: seq<Step>, s: State, c: Config)
    requires Leads(before, es, s, c) && before.paused && NoSwitch(es, false)
    ensures s.paused && s.runs.Keys == before.runs.Keys
    decreases |es|
  {
    hide ActedRun, NewRun, Emit, WriteRow, CrashedRun, BootedRun, CanAct;
    if es != [] {
      assert !Switches(es[0], false);
      var next := Next(before, es[0], c);
      assert next.runs.Keys == before.runs.Keys;
      IntakeStaysShut(next, es[1..], s, c);
    }
  }

  /** From a pause, or a boot that starts paused, until the intake is reopened no submission adds a run. */
  lemma PausedIntakeTakesNoRun(before: State, pause: Step, es: seq<Step>, s: State, c: Config)
    requires Leads(before, [pause] + es, s, c) && Switches(pause, true) && NoSwitch(es, false)
    ensures s.paused && s.runs.Keys == before.runs.Keys
  {
    assert ([pause] + es)[1..] == es;
    IntakeStaysShut(Next(before, pause, c), es, s, c);
  }

  lemma {:induction false} IntakeStaysOpen(before: State, es: seq<Step>, s: State, c: Config)
    requires Leads(before, es, s, c) && !before.paused && NoSwitch(es, true)
    ensures !s.paused
    decreases |es|
  {
    if es != [] {
      assert !Switches(es[0], true);
      IntakeStaysOpen(Next(before, es[0], c), es[1..], s, c);
    }
  }

  /** How many rows are queued or running. */
  function Backlog(s: State): nat {
    |set id | id in s.runs && s.runs[id].row.status in {Queued, Running}|
  }

  lemma BacklogCounts(s: State)
    ensures Backlog(s) == Count(s.runs, ActiveRun)
  {
    forall id | id in s.runs ensures ActiveRun(s.runs[id]) <==> s.runs[id].row.status in {Queued, Running} {
      EveryStatus(s.runs[id].row.status);
    }
    assert Having(s.runs, ActiveRun) == set id | id in s.runs && s.runs[id].row.status in {Queued, Running};
  }

  /** The record of a run just submitted: a queued row, a task, and one line. */
  predicate JustSubmitted(r: Run, e: Step)
    requires e.Submit?
  {
    && r.row == Row(Queued, e.prompt, e.sessionId, e.now, None, None, None, "", 0, 0, Usage(0, 0, None, None, None),
                    e.retryOf, 0)
    && r.task == Some(Created) && !r.alive && r.pending == {} && !r.entered
    && r.own == [Entry(0, Submitted)] && r.later == [] && r.open && r.counter == Some(1)
  }

  /** The intake is open, the prompt is not too long and the backlog has room. */
  predicate Admits(s: State, prompt: string, c: Config) {
    !s.paused && |prompt| <= c.maxPromptChars && Backlog(s) < c.queueMaxDepth
  }

  /** A submission adds exactly one run if it is admitted, and else changes nothing. */
  lemma SubmitTakesOrRefuses(s: State, e: Step, t: State, c: Config)
    requires e.Submit? && Leads(s, [e], t, c)
    ensures Admits(s, e.prompt, c) ==>
              e.id !in s.runs && e.id in t.runs && JustSubmitted(t.runs[e.id], e)
              && t == s.(runs := s.runs[e.id := t.runs[e.id]])
    ensures !Admits(s, e.prompt, c) ==> t == s
  {
    assert [e][1..] == [];
    BacklogCounts(s);
  }

  /** Once reopened, and until the next pause, every submission that finds room is taken. */
  lemma OpenIntakeTakesRuns(before: State, opening: Step, es: seq<Step>, s: State, e: Step, t: State, c: Config)
    requires Leads(before, [opening] + es, s, c) && Switches(opening, false) && NoSwitch(es, true)
    requires e.Submit? && Leads(s, [e], t, c) && |e.prompt| <= c.maxPromptChars && Backlog(s) < c.queueMaxDepth
    ensures e.id !in s.runs && e.id in t.runs && JustSubmitted(t.runs[e.id], e)
  {
    assert ([opening] + es)[1..] == es;
    IntakeStaysOpen(Next(before, opening, c), es, s, c);
    SubmitTakesOrRefuses(s, e, t, c);
  }

  /** No run with a prompt too long for the runner is ever started. */
  lemma {:induction false} PromptsFit(before: State, es: seq<Step>, s: State, id: RunId, c: Config)
    requires c.Valid() && Inv(before, c) && Leads(before, es, s, c)
    requires forall k :: k in before.runs ==> |before.runs[k].row.prompt| <= c.maxPromptChars
    ensures id in s.runs ==> |s.runs[id].row.prompt| <= c.maxPromptChars
    decreases |es|
  {
    hide Inv, Next, Enabled;
    if es != [] {
      StepKeepsInv(before, es[0], c);
      StepKeepsPrompts(before, es[0], c);
      PromptsFit(Next(before, es[0], c), es[1..], s, id, c);
    }
  }

  lemma StepKeepsPrompts(s: State, e: Step, c: Config)
    requires Inv(s, c) && Enabled(s, e)
    requires forall k :: k in s.runs ==> |s.runs[k].row.prompt| <= c.maxPromptChars
    ensures forall k :: k in Next(s, e, c).runs ==> |Next(s, e, c).runs[k].row.prompt| <= c.maxPromptChars
  {
    var t := Next(s, e, c);
    hide Inv, Next, Enabled, RowMovesForward;
    forall k | k in t.runs ensures |t.runs[k].row.prompt| <= c.maxPromptChars {
      if k in s.runs {
        StepMovesForward(s, e, k, c);
        SamePrompt(s.runs[k].row, t.runs[k].row);
      } else {
        NewcomerFits(s, e, k, c);
      }
    }
  }

  lemma SamePrompt(a: Row, b: Row)
    requires RowMovesForward(a, b)
    ensures a.prompt == b.prompt
  {
  }

  lemma NewcomerFits(s: State, e: Step, id: RunId, c: Config)
    requires Enabled(s, e) && id !in s.runs && id in Next(s, e, c).runs
    ensures |Next(s, e, c).runs[id].row.prompt| <= c.maxPromptChars
  {
    hide ActedRun, Emit, WriteRow, CrashedRun, BootedRun, CanAct;
  }

  // ----- a run's record is made by its own steps -----

  /** The step is about this run: its own, or one that reaches every run. */
  predicate About(e: Step, id: RunId) {
    match e
    case Submit(x, _, _, _, _) => x == id
    case SetIntake(_) => false
    case Crash => true
    case Boot(_, _) => true
    case _ => e.id == id
  }

  function Own(es: seq<Step>, id: RunId): seq<Step> {
    if es == [] then [] else (if About(es[0], id) then [es[0]] else []) + Own(es[1..], id)
  }

  /** One step about this run, whatever the others do. */
  function Moved(r: Run, e: Step): Run {
    match e
    case Act(_, a) => if r.task.Some? then ActedRun(r, r.task.value, a, false) else r
    case LateWrite(_, w, now) => WriteRow(r, w, now).(pending := r.pending - {w})
    case ChildExits(_) => r.(alive := false)
    case CountIntervention(_) => r.(row := IntervenedRow(r.row))
    case LogIntervention(_) => Emit(r, Intervention)
    case Crash => CrashedRun(r)
    case Boot(now, _) => BootedRun(r, now)
    case _ => r
  }

  function Replayed(r: Run, es: seq<Step>): Run
    decreases |es|
  {
    if es == [] then r else Replayed(Moved(r, es[0]), es[1..])
  }

  lemma StepMoves(s: State, e: Step, id: RunId, c: Config)
    requires Inv(s, c) && Enabled(s, e) && id in s.runs
    ensures id in Next(s, e, c).runs
    ensures Next(s, e, c).runs[id] == if About(e, id) then Moved(s.runs[id], e) else s.runs[id]
  {
    hide Inv, ActedRun, AdmittedDelta, FreeDelta, CanAct, Emit, WriteRow, NewRun, CrashedRun, BootedRun,
      RunnerRefuses;
    if e.Act? {
      NextAct(s, e.id, e.action, c);
    }
  }

  lemma ReplayedFirst(r: Run, es: seq<Step>, id: RunId)
    requires es != []
    ensures Replayed(r, Own(es, id)) == Replayed(if About(es[0], id) then Moved(r, es[0]) else r, Own(es[1..], id))
  {
    hide Moved, About;
    if About(es[0], id) {
      assert Own(es, id) == [es[0]] + Own(es[1..], id);
      assert Own(es, id)[1..] == Own(es[1..], id);
    } else {
      assert Own(es, id) == Own(es[1..], id);
    }
  }

  lemma {:induction false} OwnStepsReplay(before: State, es: seq<Step>, s: State, id: RunId, c: Config)
    requires c.Valid() && Inv(before, c) && Leads(before, es, s, c) && id in before.runs
    ensures id in s.runs && s.runs[id] == Replayed(before.runs[id], Own(es, id))
    decreases |es|
  {
    hide Inv, Enabled, Next, About, Moved;
    if es != [] {
      StepKeepsInv(before, es[0], c);
      StepMoves(before, es[0], id, c);
      OwnStepsReplay(Next(before, es[0], c), es[1..], s, id, c);
      ReplayedFirst(before.runs[id], es, id);
    }
  }

  /**
   * Two histories that treat a run alike leave it alike: what other runs do meanwhile, how full
   * the queue is or whether the intake is shut has no part in a run's row, task, child or trace.
   */
  lemma OwnStepsDecide(a: State, es: seq<Step>, s: State, b: State, fs: seq<Step>, t: State, id: RunId, c: Config)
    requires c.Valid() && Inv(a, c) && Inv(b, c) && Leads(a, es, s, c) && Leads(b, fs, t, c)
    requires id in a.runs && id in b.runs && a.runs[id] == b.runs[id] && Own(es, id) == Own(fs, id)
    ensures id in s.runs && id in t.runs && s.runs[id] == t.runs[id]
  {
    hide *;
    OwnStepsReplay(a, es, s, id, c);
    OwnStepsReplay(b, fs, t, id, c);
  }

  /** Steps about other runs leave a run as it is. */
  lemma OtherStepsLeaveRun(before: State, es: seq<Step>, s: State, id: RunId, c: Config)
    requires c.Valid() && Inv(before, c) && Leads(before, es, s, c) && id in before.runs
    requires Own(es, id) == []
    ensures id in s.runs && s.runs[id] == before.runs[id]
  {
    OwnStepsReplay(before, es, s, id, c);
  }

  // ----- the courses a run may take, and the record each leaves -----

  lemma Acts(s: State, id: RunId, a: Action, c: Config) returns (t: State)
    requires c.Valid() && Inv(s, c) && s.up && id in s.runs && s.runs[id].task.Some?
    requires CanAct(s.runs[id].task.value, s.runs[id].alive, a, s.free)
    ensures Leads(s, [Act(id, a)], t, c) && Inv(t, c) && t.up && t.paused == s.paused
    ensures t.runs == s.runs[id := ActedRun(s.runs[id], s.runs[id].task.value, a, false)]
    ensures t.free == s.free + FreeDelta(s.runs[id].task.value, a)
  {
    hide Inv, ActedRun, CanAct, FreeDelta, AdmittedDelta;
    NextAct(s, id, a, c);
    StepKeepsInv(s, Act(id, a), c);
    t := Next(s, Act(id, a), c);
    assert [Act(id, a)][1..] == [];
  }

  lemma Exits(s: State, id: RunId, c: Config) returns (t: State)
    requires c.Valid() && Inv(s, c) && s.up && id in s.runs && s.runs[id].alive
    ensures Leads(s, [ChildExits(id)], t, c) && Inv(t, c) && t.up && t.paused == s.paused && t.free == s.free
    ensures t.runs == s.runs[id := s.runs[id].(alive := false)]
  {
    hide Inv;
    StepKeepsInv(s, ChildExits(id), c);
    t := Next(s, ChildExits(id), c);
    assert [ChildExits(id)][1..] == [];
  }

  lemma Writes(s: State, id: RunId, w: Pending, now: int, c: Config) returns (t: State)
    requires c.Valid() && Inv(s, c) && s.up && id in s.runs && w in s.runs[id].pending
    ensures Leads(s, [LateWrite(id, w, now)], t, c) && Inv(t, c) && t.up
    ensures t.runs == s.runs[id := WriteRow(s.runs[id], w, now).(pending := s.runs[id].pending - {w})]
  {
    hide Inv, WriteRow;
    StepKeepsInv(s, LateWrite(id, w, now), c);
    t := Next(s, LateWrite(id, w, now), c);
    assert [LateWrite(id, w, now)][1..] == [];
  }

  /** The lines of a started run after `n` of its child's events. */
  function Lines(n: nat): seq<Entry> {
    [Entry(0, Submitted), Entry(1, Started)] + seq(n, i requires 0 <= i => Entry(i + 2, Event))
  }

  /** A started run whose child has been read `n` times. */
  predicate Reading(r: Run, n: nat) {
    && r.task == Some(Executing(n)) && r.alive && r.pending == {} && r.entered
    && r.own == Lines(n) && r.later == [] && r.open && r.counter == Some(n + 2)
  }

  function Admission(submit: Step, started: int): seq<Step>
    requires submit.Submit?
  {
    [submit] + [Act(submit.id, Begin)] + [Act(submit.id, MarkRunning(started))] + [Act(submit.id, Acquire)]
  }

  lemma SubmitAdds(s: State, e: Step, c: Config) returns (t: State)
    requires c.Valid() && Inv(s, c) && e.Submit? && Enabled(s, e) && Admits(s, e.prompt, c)
    ensures Leads(s, [e], t, c) && Inv(t, c) && t.up && t.free == s.free
    ensures e.id in t.runs && JustSubmitted(t.runs[e.id], e) && t.runs == s.runs[e.id := t.runs[e.id]]
  {
    hide Inv, JustSubmitted, Admits;
    t := Next(s, e, c);
    assert [e][1..] == [];
    StepKeepsInv(s, e, c);
    SubmitTakesOrRefuses(s, e, t, c);
  }

  /** A submission that finds room and a free place in the semaphore gets its child started. */
  lemma AdmissionRecord(s: State, e: Step, started: int, c: Config) returns (t: State)
    requires c.Valid() && Inv(s, c) && e.Submit? && Enabled(s, e)
    requires Admits(s, e.prompt, c) && s.free > 0
    ensures Leads(s, Admission(e, started), t, c) && Inv(t, c) && t.up
    ensures e.id in t.runs && t.runs == s.runs[e.id := t.runs[e.id]] && Reading(t.runs[e.id], 0)
    ensures t.runs[e.id].row == Row(Running, e.prompt, e.sessionId, e.now, Some(started), None, None, "", 0, 0,
              Usage(0, 0, None, None, None), e.retryOf, 0)
  {
    hide Inv, Admits, Leads, Enabled;
    var a := SubmitAdds(s, e, c);
    var b := Acts(a, e.id, Begin, c);
    var d := Acts(b, e.id, MarkRunning(started), c);
    t := Acts(d, e.id, Acquire, c);
    LeadsOn(s, [e], a, [Act(e.id, Begin)], b, c);
    LeadsOn(s, [e] + [Act(e.id, Begin)], b, [Act(e.id, MarkRunning(started))], d, c);
    LeadsOn(s, [e] + [Act(e.id, Begin)] + [Act(e.id, MarkRunning(started))], d, [Act(e.id, Acquire)], t, c);
  }

  lemma StayPut(s: State, c: Config)
    ensures Leads(s, [], s, c)
  {
  }

  lemma OutputReads(r: Run, n: nat)
    requires Reading(r, n)
    ensures Reading(ActedRun(r, Executing(n), Output, false), n + 1)
    ensures ActedRun(r, Executing(n), Output, false).row == r.row
  {
    assert Lines(n + 1) == Lines(n) + [Entry(n + 2, Event)];
  }

  /** Every event read is one line and one more in the task's count; the row does not hear of it yet. */
  lemma {:induction false} ReadingRecord(s: State, id: RunId, n: nat, c: Config) returns (t: State)
    requires c.Valid() && Inv(s, c) && s.up && id in s.runs && Reading(s.runs[id], 0)
    ensures Leads(s, seq(n, _ => Act(id, Output)), t, c) && Inv(t, c) && t.up
    ensures id in t.runs && t.runs == s.runs[id := t.runs[id]] && Reading(t.runs[id], n)
    ensures t.runs[id].row == s.runs[id].row
    decreases n
  {
    hide Inv, ActedRun, Lines, Leads;
    if n == 0 {
      StayPut(s, c);
      t := s;
      assert seq(0, _ => Act(id, Output)) == [];
      assert s.runs == s.runs[id := s.runs[id]];
    } else {
      var before := ReadingRecord(s, id, n - 1, c);
      OutputReads(before.runs[id], n - 1);
      t := Acts(before, id, Output, c);
      LeadsOn(s, seq(n - 1, _ => Act(id, Output)), before, [Act(id, Output)], t, c);
      assert seq(n, _ => Act(id, Output)) == seq(n - 1, _ => Act(id, Output)) + [Act(id, Output)];
    }
  }

  /** The row a finished run ends with, its interventions apart. */
  predicate Concluded(before: Row, after: Row, status: Status, error: string, n: nat, now: int) {
    after == before.(status := status, errorDetail := error, eventCount := n, completedAt := Some(now))
  }

  /** The trace got its terminal line, the next number, and is closed. */
  predicate ClosedBy(before: Run, after: Run, status: Status) {
    && after.own == before.own + [Entry(|before.own|, Ended(status))] && after.later == before.later
    && !after.open && after.counter == None
  }

  function Ending(id: RunId, status: Status, error: string, now: int): seq<Step> {
    [Act(id, StopReading)] + [ChildExits(id)] + [Act(id, Exit(status, error))] + [Act(id, Persist(now))]
  }

  lemma ReadingPhases(r: Run, n: nat, status: Status, error: string, now: int)
    requires Reading(r, n) && status in {Succeeded, Failed, TimedOut}
    ensures var stopped := ActedRun(r, Executing(n), StopReading, false);
            && stopped.task == Some(Reaping(n)) && stopped.alive
            && var exited := stopped.(alive := false);
               var told := ActedRun(exited, Reaping(n), Exit(status, error), false);
               && told.task == Some(Finishing(status, error, n))
               && Told(r, ActedRun(told, Finishing(status, error, n), Persist(now), false), status, error, n, now)
  {
  }

  predicate Told(r: Run, x: Run, status: Status, error: string, n: nat, now: int) {
    && (ActiveRow(r.row) ==> Concluded(r.row, x.row, status, error, n, now))
    && x.task.None? && !x.alive && x.pending == {} && x.entered && ClosedBy(r, x, status)
  }

  /** A child read to its end and reaped: its status, error and events reach the row. */
  lemma EndingRecord(s: State, id: RunId, n: nat, status: Status, error: string, now: int, c: Config)
    returns (t: State)
    requires c.Valid() && Inv(s, c) && s.up && id in s.runs && Reading(s.runs[id], n) && ActiveRow(s.runs[id].row)
    requires status in {Succeeded, Failed, TimedOut} && error != DAEMON_RESTARTED
    ensures Leads(s, Ending(id, status, error, now), t, c) && Inv(t, c) && t.up
    ensures id in t.runs && t.runs == s.runs[id := t.runs[id]]
    ensures Concluded(s.runs[id].row, t.runs[id].row, status, error, n, now)
    ensures t.runs[id].task.None? && !t.runs[id].alive && t.runs[id].pending == {} && t.runs[id].entered
    ensures ClosedBy(s.runs[id], t.runs[id], status)
  {
    hide Inv, Leads, ActedRun, FreeDelta, ClosedBy, Concluded, ActiveRow;
    ReadingPhases(s.runs[id], n, status, error, now);
    var a := Acts(s, id, StopReading, c);
    var b := Exits(a, id, c);
    var d := Acts(b, id, Exit(status, error), c);
    t := Acts(d, id, Persist(now), c);
    LeadsOn(s, [Act(id, StopReading)], a, [ChildExits(id)], b, c);
    LeadsOn(s, [Act(id, StopReading)] + [ChildExits(id)], b, [Act(id, Exit(status, error))], d, c);
    LeadsOn(s, [Act(id, StopReading)] + [ChildExits(id)] + [Act(id, Exit(status, error))], d,
            [Act(id, Persist(now))], t, c);
  }

  /**
   * A run's whole course, from its submission to the write of its outcome: whatever the child
   * reported, however it ended and whenever each step came, this is the row and the trace it
   * leaves, and no other run is touched.
   */
  lemma WholeRunRecord(s: State, e: Step, started: int, n: nat, status: Status, error: string, now: int, c: Config)
    returns (t: State)
    requires c.Valid() && Inv(s, c) && e.Submit? && Enabled(s, e)
    requires Admits(s, e.prompt, c) && s.free > 0
    requires status in {Succeeded, Failed, TimedOut} && error != DAEMON_RESTARTED
    ensures Leads(s, Admission(e, started) + seq(n, _ => Act(e.id, Output)) + Ending(e.id, status, error, now), t, c)
    ensures e.id in t.runs && t.runs == s.runs[e.id := t.runs[e.id]]
    ensures t.runs[e.id].row == Row(status, e.prompt, e.sessionId, e.now, Some(started), Some(now), None, error, n, 0,
              Usage(0, 0, None, None, None), e.retryOf, 0)
    ensures t.runs[e.id].own == Lines(n) + [Entry(n + 2, Ended(status))] && t.runs[e.id].later == []
    ensures t.runs[e.id].task.None? && !t.runs[e.id].alive && t.runs[e.id].pending == {}
  {
    hide Inv, Leads, Enabled, Admits, Admission, Ending;
    var a := AdmissionRecord(s, e, started, c);
    var b := ReadingRecord(a, e.id, n, c);
    t := EndingRecord(b, e.id, n, status, error, now, c);
    LeadsOn(s, Admission(e, started), a, seq(n, _ => Act(e.id, Output)), b, c);
    LeadsOn(s, Admission(e, started) + seq(n, _ => Act(e.id, Output)), b, Ending(e.id, status, error, now), t, c);
  }

  // ----- cancellations, by where they land -----

  /** The row of a cancelled run: what else it held stays, its error included. */
  predicate CancelledRow(before: Row, after: Row, n: nat, now: int) {
    after == before.(status := Cancelled, eventCount := n, completedAt := Some(now))
  }

  /** A task that never began leaves its row queued and writes nothing. */
  lemma CancelBeforeStart(s: State, id: RunId, c: Config) returns (t: State)
    requires c.Valid() && Inv(s, c) && s.up && id in s.runs && s.runs[id].task == Some(Created)
    ensures Leads(s, [Act(id, Cancel)], t, c) && Inv(t, c)
    ensures t.runs == s.runs[id := s.runs[id].(task := None)]
  {
    hide Inv;
    t := Acts(s, id, Cancel, c);
  }

  lemma OpenTask(s: State, id: RunId, c: Config)
    requires Inv(s, c) && id in s.runs && s.runs[id].task.Some?
    ensures ActiveRow(s.runs[id].row)
    ensures s.runs[id].task.value.Cancelling? || s.runs[id].task.value.Finishing? ||
            (s.runs[id].open && s.runs[id].counter == Some(|s.runs[id].own|))
    ensures s.runs[id].task.value.Finishing? ==> s.runs[id].pending == {}
    ensures s.runs[id].pending <= {RUNNING}
  {
    hide LineageOk, CountsOk, LegalTrace, EndedWith, Visible, Trace, Numbered;
    assert RunOk(s.runs[id], s.up);
  }

  lemma CancelPhases(r: Run, p: Phase, n: nat, now: int)
    requires p == Starting || p == Waiting || p == Reaping(n) || p == Killing(n)
    requires (p == Starting || p == Waiting) ==> n == 0
    requires r.open && r.counter == Some(|r.own|) && ActiveRow(r.row)
    ensures var told := ActedRun(r, p, Cancel, false);
            && told.task == Some(Cancelling(n))
            && CancelTold(r, ActedRun(told, Cancelling(n), Persist(now), false), n, now, p.Starting?)
  {
  }

  predicate CancelTold(r: Run, x: Run, n: nat, now: int, pending: bool) {
    && CancelledRow(r.row, x.row, n, now) && ClosedBy(r, x, Cancelled)
    && x.task.None? && x.alive == r.alive && x.entered == r.entered
    && x.pending == r.pending + if pending then {Pending(Running, "", 0)} else {}
  }

  /**
   * A cancellation that lands outside the reading loop: one terminal line, then the row, with the
   * events read so far. The child stays as it is, and an interrupted `running` write stays in flight.
   */
  lemma CancelBetween(s: State, id: RunId, n: nat, now: int, c: Config) returns (t: State)
    requires c.Valid() && Inv(s, c) && s.up && id in s.runs && s.runs[id].task.Some?
    requires var p := s.runs[id].task.value;
             (n == 0 && (p == Starting || p == Waiting)) || p == Reaping(n) || p == Killing(n)
    ensures Leads(s, [Act(id, Cancel)] + [Act(id, Persist(now))], t, c) && Inv(t, c)
    ensures id in t.runs && t.runs == s.runs[id := t.runs[id]]
    ensures CancelTold(s.runs[id], t.runs[id], n, now, s.runs[id].task == Some(Starting))
  {
    hide Inv, Leads, ActedRun, FreeDelta, CancelTold, ActiveRow;
    OpenTask(s, id, c);
    CancelPhases(s.runs[id], s.runs[id].task.value, n, now);
    var a := Acts(s, id, Cancel, c);
    t := Acts(a, id, Persist(now), c);
    LeadsOn(s, [Act(id, Cancel)], a, [Act(id, Persist(now))], t, c);
  }

  lemma KilledPhases(r: Run, n: nat, now: int)
    requires r.task == Some(Executing(n)) && r.open && r.counter == Some(|r.own|) && ActiveRow(r.row)
    ensures var killing := ActedRun(r, Executing(n), Cancel, false);
            && killing == r.(task := Some(Killing(n)))
            && var told := ActedRun(killing.(alive := false), Killing(n), Killed, false);
               && told.task == Some(Cancelling(n))
               && CancelTold(r.(alive := false), ActedRun(told, Cancelling(n), Persist(now), false), n, now, false)
  {
  }

  /** A cancellation that lands in the reading loop: the child is killed and reaped before the row is written. */
  lemma CancelWhileReading(s: State, id: RunId, n: nat, now: int, c: Config) returns (t: State)
    requires c.Valid() && Inv(s, c) && s.up && id in s.runs && s.runs[id].task == Some(Executing(n))
    requires s.runs[id].alive
    ensures Leads(s, [Act(id, Cancel)] + [ChildExits(id)] + [Act(id, Killed)] + [Act(id, Persist(now))], t, c)
    ensures Inv(t, c) && id in t.runs && t.runs == s.runs[id := t.runs[id]]
    ensures CancelTold(s.runs[id].(alive := false), t.runs[id], n, now, false)
  {
    hide Inv, Leads, ActedRun, FreeDelta, CancelTold, ActiveRow;
    OpenTask(s, id, c);
    KilledPhases(s.runs[id], n, now);
    var a := Acts(s, id, Cancel, c);
    var b := Exits(a, id, c);
    var d := Acts(b, id, Killed, c);
    t := Acts(d, id, Persist(now), c);
    LeadsOn(s, [Act(id, Cancel)], a, [ChildExits(id)], b, c);
    LeadsOn(s, [Act(id, Cancel)] + [ChildExits(id)], b, [Act(id, Killed)], d, c);
    LeadsOn(s, [Act(id, Cancel)] + [ChildExits(id)] + [Act(id, Killed)], d, [Act(id, Persist(now))], t, c);
  }

  lemma WritingPhases(r: Run, w: Pending, now: int)
    requires r.task.Some? && ActiveRow(r.row) && r.pending <= {RUNNING} && w != RUNNING
    requires var p := r.task.value;
             || (p == Finishing(w.status, w.error, w.events) && w.status in {Succeeded, Failed, TimedOut})
             || (p == Cancelling(w.events) && w.status == Cancelled && w.error == "")
    ensures var left := ActedRun(r, r.task.value, Cancel, false);
            && left == r.(task := None, pending := r.pending + {w})
            && var x := WriteRow(left, w, now).(pending := left.pending - {w});
               && x == r.(task := None, row := x.row)
               && (w.status == Cancelled ==> CancelledRow(r.row, x.row, w.events, now))
               && (w.status != Cancelled ==> Concluded(r.row, x.row, w.status, w.error, w.events, now))
  {
    assert r.pending + {w} - {w} == r.pending;
  }

  /** A cancellation that lands while the outcome is written: the write is applied all the same, as it was. */
  lemma CancelWhileWriting(s: State, id: RunId, w: Pending, now: int, c: Config) returns (t: State)
    requires c.Valid() && Inv(s, c) && s.up && id in s.runs && s.runs[id].task.Some?
    requires var p := s.runs[id].task.value;
             || (p == Finishing(w.status, w.error, w.events) && w.status in {Succeeded, Failed, TimedOut})
             || (p == Cancelling(w.events) && w.status == Cancelled && w.error == "")
    ensures Leads(s, [Act(id, Cancel)] + [LateWrite(id, w, now)], t, c) && Inv(t, c)
    ensures id in t.runs && t.runs == s.runs[id := s.runs[id].(task := None, row := t.runs[id].row)]
    ensures w.status == Cancelled ==> CancelledRow(s.runs[id].row, t.runs[id].row, w.events, now)
    ensures w.status != Cancelled ==> Concluded(s.runs[id].row, t.runs[id].row, w.status, w.error, w.events, now)
  {
    hide Inv, Leads, ActedRun, WriteRow, FreeDelta, ActiveRow, Concluded, CancelledRow;
    OpenTask(s, id, c);
    WritingPhases(s.runs[id], w, now);
    var a := Acts(s, id, Cancel, c);
    t := Writes(a, id, w, now, c);
    LeadsOn(s, [Act(id, Cancel)], a, [LateWrite(id, w, now)], t, c);
  }

  lemma SpawnFailurePhases(r: Run, error: string, now: int)
    requires r.task == Some(Waiting) && r.open && r.counter == Some(|r.own|) && ActiveRow(r.row)
    ensures var told := ActedRun(r, Waiting, SpawnFails(error), false);
            && told.task == Some(Finishing(Failed, error, 0))
            && var x := ActedRun(told, Finishing(Failed, error, 0), Persist(now), false);
               && x.task.None? && x.alive == r.alive
               && Concluded(r.row, x.row, Failed, error, 0, now) && ClosedBy(r, x, Failed)
  {
  }

  /** A child that cannot be spawned fails its run with the spawn's error. */
  lemma SpawnFailureRecord(s: State, id: RunId, error: string, now: int, c: Config) returns (t: State)
    requires c.Valid() && Inv(s, c) && s.up && id in s.runs && s.runs[id].task == Some(Waiting)
    requires s.free > 0 && error != DAEMON_RESTARTED
    ensures Leads(s, [Act(id, SpawnFails(error))] + [Act(id, Persist(now))], t, c) && Inv(t, c)
    ensures id in t.runs && t.runs == s.runs[id := t.runs[id]] && t.runs[id].task.None?
    ensures Concluded(s.runs[id].row, t.runs[id].row, Failed, error, 0, now)
    ensures ClosedBy(s.runs[id], t.runs[id], Failed) && t.runs[id].alive == s.runs[id].alive
  {
    hide Inv, Leads, ActedRun, FreeDelta, ActiveRow, Concluded, ClosedBy;
    OpenTask(s, id, c);
    SpawnFailurePhases(s.runs[id], error, now);
    var a := Acts(s, id, SpawnFails(error), c);
    t := Acts(a, id, Persist(now), c);
    LeadsOn(s, [Act(id, SpawnFails(error))], a, [Act(id, Persist(now))], t, c);
  }

  /** An interrupted `running` write reaches its row if no terminal write came first, and else changes nothing. */
  lemma LateRunningWrite(s: State, id: RunId, now: int, t: State, c: Config)
    requires Leads(s, [LateWrite(id, Pending(Running, "", 0), now)], t, c) && id in s.runs
    ensures id in t.runs
    ensures t == s.(runs := s.runs[id := s.runs[id].(row := t.runs[id].row,
                                                     pending := s.runs[id].pending - {Pending(Running, "", 0)})])
    ensures t.runs[id].row == if s.runs[id].row.status in {Queued, Running}
                              then s.runs[id].row.(status := Running, startedAt := Some(now))
                              else s.runs[id].row
  {
    assert [LateWrite(id, Pending(Running, "", 0), now)][1..] == [];
    EveryStatus(s.runs[id].row.status);
  }

  /** An intervention on an ended run is numbered anew, from zero or on from the last such line. */
  lemma LateIntervention(s: State, id: RunId, t: State, c: Config)
    requires Leads(s, [LogIntervention(id)], t, c) && id in s.runs && !s.runs[id].open
    ensures id in t.runs
    ensures t == s.(runs := s.runs[id := s.runs[id].(later := t.runs[id].later, counter := t.runs[id].counter)])
    ensures var number := if s.runs[id].counter.Some? then s.runs[id].counter.value else 0;
            && t.runs[id].later == s.runs[id].later + [Entry(number, Intervention)]
            && t.runs[id].counter == Some(number + 1)
  {
    assert [LogIntervention(id)][1..] == [];
  }

  // ----- restarts -----

  /** What a crash and the next boot make of a run. */
  predicate Restarted(before: Run, after: Run, now: int) {
    && after.row == (if before.row.status in {Queued, Running}
                     then before.row.(status := Failed, errorDetail := "daemon restarted", completedAt := Some(now))
                     else before.row)
    && after.own == before.own && after.later == before.later && !after.open && after.counter == None
    && after.task.None? && !after.alive && after.pending == {} && after.entered == before.entered
  }

  /** A restart loses no run: open rows fail, ended rows stand, and every task, child, write and counter is gone. */
  lemma RestartRecord(s: State, now: int, paused: bool, t: State, c: Config)
    requires Leads(s, [Crash] + [Boot(now, paused)], t, c)
    ensures t.runs.Keys == s.runs.Keys && t.up && t.paused == paused
    ensures t.admitted == 0 && t.free == c.maxConcurrentRuns
    ensures forall id :: id in s.runs ==> Restarted(s.runs[id], t.runs[id], now)
  {
    var crashed := Next(s, Crash, c);
    assert ([Crash] + [Boot(now, paused)])[1..] == [Boot(now, paused)] && [Boot(now, paused)][1..] == [];
    assert Leads(crashed, [Boot(now, paused)], t, c) && Leads(Next(crashed, Boot(now, paused), c), [], t, c);
    forall id | id in s.runs ensures Restarted(s.runs[id], t.runs[id], now) {
      EveryStatus(s.runs[id].row.status);
    }
  }

  // ----- what a run's numbers count -----

  function Kinds(log: seq<Entry>): multiset<Kind> {
    if log == [] then multiset{} else Kinds(log[..|log| - 1]) + multiset{log[|log| - 1].kind}
  }

  /** The lines of a run, those after its end included. */
  function AllLines(r: Run): multiset<Kind> {
    Kinds(r.own) + Kinds(r.later)
  }

  function LinesOf(s: State, id: RunId): multiset<Kind> {
    if id in s.runs then AllLines(s.runs[id]) else multiset{}
  }

  function Interventions(s: State, id: RunId): nat {
    if id in s.runs then s.runs[id].row.interventions else 0
  }

  function OneIf(e: Step, what: Step): nat {
    if e == what then 1 else 0
  }

  lemma KindsAdd(log: seq<Entry>, entry: Entry)
    ensures Kinds(log + [entry]) == Kinds(log) + multiset{entry.kind}
  {
    assert (log + [entry])[..|log|] == log;
  }

  lemma EmitAddsLine(r: Run, kind: Kind)
    ensures AllLines(Emit(r, kind)) == AllLines(r) + multiset{kind}
    ensures Emit(r, kind).row == r.row
  {
    hide Kinds;
    var entry := Entry(Number(r.counter), kind);
    KindsAdd(r.own, entry);
    KindsAdd(r.later, entry);
  }

  /** One run against another: `n` more events read, `m` more interventions logged, `k` more counted. */
  predicate Grows(r: Run, x: Run, n: nat, m: nat, k: nat) {
    && AllLines(x)[Event] == AllLines(r)[Event] + n && AllLines(x)[Intervention] == AllLines(r)[Intervention] + m
    && x.row.interventions == r.row.interventions + k
  }

  lemma EmitGrows(r: Run, kind: Kind)
    ensures Grows(r, Emit(r, kind), if kind == Event then 1 else 0, if kind == Intervention then 1 else 0, 0)
  {
    hide Kinds, Emit;
    EmitAddsLine(r, kind);
  }

  lemma WriteGrows(r: Run, w: Pending, now: int)
    ensures Grows(r, WriteRow(r, w, now), 0, 0, 0)
  {
    hide Kinds;
  }

  lemma CancelGrows(r: Run, p: Phase)
    requires r.task == Some(p)
    ensures Grows(r, CancelledRun(r, p), 0, 0, 0)
  {
    hide Kinds, Emit;
    EmitGrows(r, Ended(Cancelled));
    EmitGrows(r.(pending := r.pending + {RUNNING}), Ended(Cancelled));
  }

  lemma ActGrows(r: Run, p: Phase, a: Action)
    requires r.task == Some(p)
    ensures Grows(r, ActedRun(r, p, a, false), if a == Output then 1 else 0, 0, 0)
  {
    hide Kinds, Emit, WriteRow, CancelledRun;
    match a
    case Begin =>
    case MarkRunning(now) =>
      WriteGrows(r, RUNNING, now);
      EmitGrows(WriteRow(r, RUNNING, now), Started);
    case Acquire =>
    case SpawnFails(_) => EmitGrows(r, Ended(Failed));
    case Output => EmitGrows(r, Event);
    case StopReading =>
    case Exit(status, _) => EmitGrows(r, Ended(status));
    case Persist(now) => WriteGrows(r, Awaited(p), now);
    case Killed => EmitGrows(r, Ended(Cancelled));
    case Cancel => CancelGrows(r, p);
  }

  lemma MovedGrows(r: Run, e: Step)
    requires (e.Act? ==> r.task.Some?) && !e.Submit?
    ensures Grows(r, Moved(r, e), if e.Act? && e.action == Output then 1 else 0, if e.LogIntervention? then 1 else 0,
                  if e.CountIntervention? then 1 else 0)
  {
    hide Kinds, Emit, ActedRun, Grows;
    match e
    case Act(_, a) => ActGrows(r, r.task.value, a);
    case LogIntervention(_) => EmitGrows(r, Intervention);
    case _ => QuietGrows(r, e);
  }

  lemma QuietGrows(r: Run, e: Step)
    requires !e.Act? && !e.LogIntervention? && !e.Submit?
    ensures Grows(r, Moved(r, e), 0, 0, if e.CountIntervention? then 1 else 0)
  {
    hide Kinds, Emit, ActedRun;
  }

  lemma SubmitCounts(s: State, e: Step, id: RunId, c: Config)
    requires Inv(s, c) && Enabled(s, e) && e.Submit? && id !in s.runs
    ensures LinesOf(Next(s, e, c), id)[Event] == 0 && LinesOf(Next(s, e, c), id)[Intervention] == 0
    ensures Interventions(Next(s, e, c), id) == 0
  {
    hide Inv, Enabled, Next, JustSubmitted, Admits, AllLines;
    var t := Next(s, e, c);
    assert [e][1..] == [];
    SubmitTakesOrRefuses(s, e, t, c);
    if id in t.runs {
      FirstLine(t.runs[id], e);
    }
  }

  lemma FirstLine(r: Run, e: Step)
    requires e.Submit? && JustSubmitted(r, e)
    ensures AllLines(r) == multiset{Submitted} && r.row.interventions == 0
  {
    assert [Entry(0, Submitted)][..0] == [];
  }

  lemma StepCounts(s: State, e: Step, id: RunId, c: Config)
    requires Inv(s, c) && Enabled(s, e)
    ensures LinesOf(Next(s, e, c), id)[Event] == LinesOf(s, id)[Event] + OneIf(e, Act(id, Output))
    ensures LinesOf(Next(s, e, c), id)[Intervention] == LinesOf(s, id)[Intervention] + OneIf(e, LogIntervention(id))
    ensures Interventions(Next(s, e, c), id) == Interventions(s, id) + OneIf(e, CountIntervention(id))
  {
    hide Inv, Kinds, Moved, Emit, ActedRun, NewRun, CanAct;
    if id in s.runs {
      StepMoves(s, e, id, c);
      if About(e, id) {
        MovedGrows(s.runs[id], e);
      }
    } else if e.Submit? {
      SubmitCounts(s, e, id, c);
    } else {
      StepAddsNone(s, e, c);
    }
  }

  lemma StepAddsNone(s: State, e: Step, c: Config)
    requires Enabled(s, e) && !e.Submit?
    ensures Next(s, e, c).runs.Keys == s.runs.Keys
  {
    hide Emit, ActedRun, NewRun, CanAct;
  }

  lemma {:induction false} HistoryCounts(before: State, es: seq<Step>, s: State, id: RunId, c: Config)
    requires c.Valid() && Inv(before, c) && Leads(before, es, s, c)
    ensures LinesOf(s, id)[Event] == LinesOf(before, id)[Event] + multiset(es)[Act(id, Output)]
    ensures LinesOf(s, id)[Intervention] == LinesOf(before, id)[Intervention] + multiset(es)[LogIntervention(id)]
    ensures Interventions(s, id) == Interventions(before, id) + multiset(es)[CountIntervention(id)]
    decreases |es|
  {
    hide Inv, LinesOf, Interventions, Next, Enabled;
    if es != [] {
      StepKeepsInv(before, es[0], c);
      StepCounts(before, es[0], id, c);
      HistoryCounts(Next(before, es[0], c), es[1..], s, id, c);
      assert es == [es[0]] + es[1..];
    }
  }

  /**
   * From the first boot on, a run's numbers are what happened: one line for each event read and each
   * intervention logged, one in its row for each intervention counted; and a row ended by its task
   * holds the number of its child's events.
   */
  lemma RowsCountWhatHappened(es: seq<Step>, s: State, id: RunId, c: Config)
    requires c.Valid() && Leads(Initial(c), es, s, c) && id in s.runs
    ensures s.runs[id].row.interventions == multiset(es)[CountIntervention(id)]
    ensures AllLines(s.runs[id])[Intervention] == multiset(es)[LogIntervention(id)]
    ensures AllLines(s.runs[id])[Event] == multiset(es)[Act(id, Output)]
    ensures var row := s.runs[id].row;
            Terminal(row.status) && row.errorDetail != DAEMON_RESTARTED ==>
                row.eventCount == multiset(es)[Act(id, Output)]
  {
    hide Inv, Leads, EndedWith, Kinds, Trace, Visible, LegalTrace;
    InitialInv(c);
    HistoryCounts(Initial(c), es, s, id, c);
    TracesAreLegal(es, s, id, c);
    var r := s.runs[id];
    if Terminal(r.row.status) && r.row.errorDetail != DAEMON_RESTARTED {
      ClosedCounts(r, r.row.status, r.row.eventCount);
    }
  }

  lemma {:induction false} VisibleCounts(log: seq<Entry>)
    ensures Kinds(log)[Event] == multiset(Visible(log))[Event]
  {
    if log != [] {
      VisibleCounts(log[..|log| - 1]);
    }
  }

  lemma {:induction false} InterventionsOnly(log: seq<Entry>)
    requires forall i :: 0 <= i < |log| ==> log[i].kind == Intervention
    ensures Kinds(log)[Event] == 0
  {
    if log != [] {
      InterventionsOnly(log[..|log| - 1]);
    }
  }

  lemma {:induction false} ManyEvents(n: nat)
    ensures multiset(seq(n, _ => Event))[Event] == n
  {
    if n > 0 {
      ManyEvents(n - 1);
      assert seq(n, _ => Event) == seq(n - 1, _ => Event) + [Event];
    }
  }

  lemma ClosedCounts(r: Run, status: Status, n: nat)
    requires EndedWith(r, status, n) && forall i :: 0 <= i < |r.later| ==> r.later[i].kind == Intervention
    ensures AllLines(r)[Event] == n
  {
    hide Kinds, Visible;
    VisibleCounts(r.own);
    InterventionsOnly(r.later);
    ManyEvents(n);
    ManyEvents(0);
  }
}
