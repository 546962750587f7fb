/** The invariant of the run protocol over all runs at once, and that every step keeps it. */
module OpencodeInvariant {
  import opened Wrappers
  import opened Counting
  import opened OpencodeRuns
  import opened OpencodeTelemetry
  import opened OpencodeProtocol

  lemma ReplaceRun(runs: map<RunId, Run>, id: RunId, r: Run)
    requires id in runs
    ensures Count(runs[id := r], Admitted) == Count(runs, Admitted) - (if Admitted(runs[id]) then 1
        else 0) + (if Admitted(r) then 1 else 0)
    ensures Count(runs[id := r], HoldsSemaphore)
         == Count(runs, HoldsSemaphore) - (if HoldsSemaphore(runs[id]) then 1 else 0) + (if HoldsSemaphore(r)
             then 1 else 0)
    ensures Count(runs[id := r], ActiveRun) == Count(runs, ActiveRun) - (if ActiveRun(runs[id]) then 1
        else 0) + (if ActiveRun(r) then 1 else 0)
    ensures |runs[id := r]| == |runs|
  {
    CountUpdate(runs, id, r, Admitted);
    CountUpdate(runs, id, r, HoldsSemaphore);
    CountUpdate(runs, id, r, ActiveRun);
    assert runs[id := r].Keys == runs.Keys;
  }

  lemma AdmittedAreActive(runs: map<RunId, Run>, up: bool)
    requires AllRunsOk(runs, up)
    ensures forall k :: k in runs && Admitted(runs[k]) ==> ActiveRun(runs[k])
    ensures forall k :: k in runs && runs[k].task == Some(Starting) ==> ActiveRun(runs[k]) && !Admitted(runs[k])
  {
    hide TraceOk, ChildOk;
    forall k | k in runs && runs[k].task.Some? ensures ActiveRun(runs[k]) {
      assert RunOk(runs[k], up);
    }
  }

  /**
   * The runner never refuses a run the service started: the run at the admission check
   * has an active row of its own and is not yet admitted, so a place is left.
   */
  lemma RunnerNeverRefuses(s: State, id: RunId, c: Config)
    requires Inv(s, c) && id in s.runs && s.runs[id].task == Some(Starting)
    ensures !RunnerRefuses(s, c)
  {
    hide LineageOk, AllRunsOk;
    AdmittedAreActive(s.runs, s.up);
    hide Admitted, ActiveRun;
    CountAtMost(s.runs, Admitted, ActiveRun);
  }

  function One(b: bool): nat {
    if b then 1 else 0
  }

  /** `_admitted` and the semaphore follow the phases of the one task that acts. */
  lemma ActMovesCounters(r: Run, p: Phase, a: Action, free: int)
    requires RunOk(r, true) && r.task == Some(p) && CanAct(p, r.alive, a, free)
    ensures var r' := ActedRun(r, p, a, false);
            && One(Admitted(r')) == One(Admitted(r)) + AdmittedDelta(p, a, false)
            && One(HoldsSemaphore(r')) == One(HoldsSemaphore(r)) - FreeDelta(p, a)
            && One(ActiveRun(r')) <= One(ActiveRun(r))
  {
    hide TraceOk, Emit, WriteRow;
    match a
    case Persist(now) => PersistEndsRow(r, p, now);
    case Cancel => match p { case _ => }
    case _ =>
  }

  lemma PersistEndsRow(r: Run, p: Phase, now: int)
    requires p.Cancelling? || p.Finishing?
    ensures ActiveRun(WriteRow(r, Awaited(p), now)) ==> ActiveRun(r)
  {
  }

  lemma CountsFollow(s: State, id: RunId, r: Run, admitted: int, free: int, c: Config)
    requires CountsOk(s, c) && id in s.runs && s.free + free >= 0
    requires One(Admitted(r)) == One(Admitted(s.runs[id])) + admitted
    requires One(HoldsSemaphore(r)) == One(HoldsSemaphore(s.runs[id])) - free
    requires One(ActiveRun(r)) <= One(ActiveRun(s.runs[id]))
    ensures CountsOk(State(s.runs[id := r], s.admitted + admitted, s.free + free, s.paused, s.up), c)
  {
    hide Admitted, HoldsSemaphore, ActiveRun;
    ReplaceRun(s.runs, id, r);
    hide Count;
  }

  lemma InvParts(s: State, c: Config)
    requires Inv(s, c)
    ensures CountsOk(s, c) && s.free >= 0
    ensures forall id :: id in s.runs ==> RunOk(s.runs[id], s.up)
  {
  }

  lemma PlacesStay(p: Phase, alive: bool, a: Action, free: int)
    requires CanAct(p, alive, a, free) && free >= 0
    ensures free + FreeDelta(p, a) >= 0
  {
  }

  /** Admission is looked at by one action alone. */
  lemma RefusedMattersOnce(r: Run, p: Phase, a: Action, refused: bool)
    requires r.task == Some(p) && !(a.MarkRunning? && refused)
    ensures ActedRun(r, p, a, refused) == ActedRun(r, p, a, false)
    ensures AdmittedDelta(p, a, refused) == AdmittedDelta(p, a, false)
  {
    hide Emit, WriteRow;
  }

  /** What an action does, the runner's refusal being out of the question. */
  lemma NextAct(s: State, id: RunId, a: Action, c: Config)
    requires Inv(s, c) && Enabled(s, Act(id, a))
    ensures s.up && id in s.runs && s.runs[id].task.Some?
    ensures var r, p := s.runs[id], s.runs[id].task.value;
            && CanAct(p, r.alive, a, s.free)
            && Next(s, Act(id, a), c) == State(s.runs[id := ActedRun(r, p, a, false)],
                 s.admitted + AdmittedDelta(p, a, false), s.free + FreeDelta(p, a), s.paused, s.up)
  {
    hide Inv, ActedRun, AdmittedDelta, FreeDelta, RunnerRefuses;
    if a.MarkRunning? {
      RunnerNeverRefuses(s, id, c);
    }
    RefusedMattersOnce(s.runs[id], s.runs[id].task.value, a, RunnerRefuses(s, c));
  }

  lemma ActKeepsCounts(s: State, id: RunId, a: Action, c: Config)
    requires Inv(s, c) && Enabled(s, Act(id, a))
    ensures CountsOk(Next(s, Act(id, a), c), c)
  {
    hide *;
    InvParts(s, c);
    NextAct(s, id, a, c);
    var r, p := s.runs[id], s.runs[id].task.value;
    ActMovesCounters(r, p, a, s.free);
    PlacesStay(p, r.alive, a, s.free);
    CountsFollow(s, id, ActedRun(r, p, a, false), AdmittedDelta(p, a, false), FreeDelta(p, a), c);
  }

  /** A step on one run that keeps its task and does not revive its row keeps every counter. */
  lemma QuietStepKeepsCounts(s: State, id: RunId, r: Run, c: Config)
    requires CountsOk(s, c) && id in s.runs
    requires r.task == s.runs[id].task && (ActiveRun(r) ==> ActiveRun(s.runs[id]))
    ensures CountsOk(s.(runs := s.runs[id := r]), c)
  {
    ReplaceRun(s.runs, id, r);
  }

  lemma SubmitKeepsCounts(s: State, id: RunId, r: Run, c: Config)
    requires CountsOk(s, c) && id !in s.runs && Count(s.runs, ActiveRun) < c.queueMaxDepth && r.task == Some(Created)
    ensures CountsOk(s.(runs := s.runs[id := r]), c)
  {
    CountUpdate(s.runs, id, r, Admitted);
    CountUpdate(s.runs, id, r, HoldsSemaphore);
    CountUpdate(s.runs, id, r, ActiveRun);
  }

  lemma NoTasksNoCounts(runs: map<RunId, Run>)
    requires forall id :: id in runs ==> runs[id].task.None?
    ensures Count(runs, Admitted) == 0 && Count(runs, HoldsSemaphore) == 0
  {
    assert Having(runs, Admitted) == {} && Having(runs, HoldsSemaphore) == {};
  }

  lemma ReplaceKeepsLineage(runs: map<RunId, Run>, id: RunId, r: Run)
    requires LineageOk(runs) && id in runs
    requires r.born == runs[id].born && r.row.retryOf == runs[id].row.retryOf
    ensures LineageOk(runs[id := r])
  {
    assert runs[id := r].Keys == runs.Keys;
    assert |runs[id := r]| == |runs|;
    var m := runs[id := r];
    forall k | k in m ensures LinkOk(m, k) {
      assert LinkOk(runs, k);
    }
  }

  lemma ExtendKeepsLineage(runs: map<RunId, Run>, id: RunId, r: Run)
    requires LineageOk(runs) && id !in runs
    requires r.born == |runs| && (r.row.retryOf.Some? ==> r.row.retryOf.value in runs)
    ensures LineageOk(runs[id := r])
  {
    assert |runs[id := r]| == |runs| + 1;
    var m := runs[id := r];
    forall k | k in m ensures LinkOk(m, k) {
      if k != id {
        assert LinkOk(runs, k);
      }
    }
  }

  lemma PutKeepsRunsOk(runs: map<RunId, Run>, id: RunId, r: Run, up: bool)
    requires AllRunsOk(runs, up) && RunOk(r, up)
    ensures AllRunsOk(runs[id := r], up)
  {
    var m := runs[id := r];
    forall k | k in m ensures RunOk(m[k], up) {
      if k != id {
        assert m[k] == runs[k];
      }
    }
  }

  /** Run by run, what a step on one run leaves of the invariant. */
  lemma OneRunStep(s: State, id: RunId, r: Run, c: Config)
    requires Inv(s, c) && s.up && id in s.runs && RunOk(r, true)
    requires r.born == s.runs[id].born && r.row.retryOf == s.runs[id].row.retryOf
    ensures LineageOk(s.runs[id := r]) && AllRunsOk(s.runs[id := r], true)
  {
    ReplaceKeepsLineage(s.runs, id, r);
    PutKeepsRunsOk(s.runs, id, r, true);
  }

  lemma ActKeepsInv(s: State, id: RunId, a: Action, c: Config)
    requires Inv(s, c) && Enabled(s, Act(id, a))
    ensures Inv(Next(s, Act(id, a), c), c)
  {
    hide CountsOk, LineageOk, AllRunsOk, RunOk, ActedRun, AdmittedDelta, FreeDelta, CanAct, RunnerRefuses, Next,
      Enabled;
    InvParts(s, c);
    NextAct(s, id, a, c);
    var r, p := s.runs[id], s.runs[id].task.value;
    ActKeepsRun(r, p, a, s.free);
    ActKeepsLineage(r, p, a, false);
    ActKeepsCounts(s, id, a, c);
    OneRunStep(s, id, ActedRun(r, p, a, false), c);
  }

  lemma ActKeepsLineage(r: Run, p: Phase, a: Action, refused: bool)
    requires r.task == Some(p)
    ensures ActedRun(r, p, a, refused).born == r.born
    ensures ActedRun(r, p, a, refused).row.retryOf == r.row.retryOf
  {
    hide Emit, WriteRow;
  }

  /** Crash and boot rewrite every run at once, keeping its place in the lineage. */
  lemma RewriteKeepsLineage(before: map<RunId, Run>, after: map<RunId, Run>)
    requires LineageOk(before) && after.Keys == before.Keys
    requires forall id :: id in before ==>
               after[id].born == before[id].born && after[id].row.retryOf == before[id].row.retryOf
    ensures LineageOk(after)
  {
    assert |after.Keys| == |before.Keys|;
    assert |after| == |before|;
    forall k | k in after ensures LinkOk(after, k) {
      assert LinkOk(before, k);
    }
  }

  lemma CrashKeepsCounts(s: State, c: Config)
    requires CountsOk(s, c) && Enabled(s, Crash)
    ensures CountsOk(Next(s, Crash, c), c)
  {
    var s' := Next(s, Crash, c);
    NoTasksNoCounts(s'.runs);
    assert Having(s'.runs, ActiveRun) == Having(s.runs, ActiveRun);
  }

  lemma CrashKeepsInv(s: State, c: Config)
    requires Inv(s, c) && Enabled(s, Crash) && c.Valid()
    ensures Inv(Next(s, Crash, c), c)
  {
    hide RunOk, CountsOk, LineageOk;
    CrashKeepsCounts(s, c);
    forall id | id in s.runs ensures RunOk(CrashedRun(s.runs[id]), false) {
      CrashOk(s.runs[id]);
    }
    RewriteKeepsLineage(s.runs, Next(s, Crash, c).runs);
  }

  lemma BootRuns(s: State, now: int, runs: map<RunId, Run>, c: Config)
    requires Inv(s, c) && !s.up && runs == map id | id in s.runs :: BootedRun(s.runs[id], now)
    ensures AllRunsOk(runs, true) && LineageOk(runs)
    ensures forall id :: id in runs ==> !ActiveRun(runs[id]) && runs[id].task.None?
  {
    hide RunOk, ActiveRun, CountsOk, LineageOk;
    DownHasNoTasks(s, c);
    forall id | id in s.runs ensures RunOk(BootedRun(s.runs[id], now), true) && !ActiveRun(BootedRun(s.runs[id], now)) {
      BootOk(s.runs[id], now);
    }
    RewriteKeepsLineage(s.runs, runs);
  }

  /** Right after the boot sweep no run is active. */
  lemma {:induction false} BootKeepsInv(s: State, now: int, paused: bool, c: Config)
    requires Inv(s, c) && Enabled(s, Boot(now, paused)) && c.Valid()
    ensures Inv(Next(s, Boot(now, paused), c), c)
    ensures Count(Next(s, Boot(now, paused), c).runs, ActiveRun) == 0
  {
    var s' := Next(s, Boot(now, paused), c);
    BootRuns(s, now, s'.runs, c);
    DownHasNoTasks(s, c);
    NoTasksNoCounts(s'.runs);
    NoTasksNoCounts(s.runs);
    assert Having(s'.runs, ActiveRun) == {};
  }

  lemma DownHasNoTasks(s: State, c: Config)
    requires Inv(s, c) && !s.up
    ensures forall id :: id in s.runs ==> s.runs[id].task.None?
  {
    forall id | id in s.runs ensures s.runs[id].task.None? {
      assert RunOk(s.runs[id], false);
    }
  }

  lemma SubmitKeepsInv(s: State, e: Step, c: Config)
    requires c.Valid() && Inv(s, c) && Enabled(s, e) && e.Submit?
    ensures Inv(Next(s, e, c), c)
  {
    hide RunOk, LineageOk, AllRunsOk, Emit;
    if !s.paused && |e.prompt| <= c.maxPromptChars && Count(s.runs, ActiveRun) < c.queueMaxDepth {
      var r := NewRun(e.prompt, e.sessionId, e.now, e.retryOf, |s.runs|);
      NewRunOk(e.prompt, e.sessionId, e.now, e.retryOf, |s.runs|);
      SubmitKeepsCounts(s, e.id, r, c);
      ExtendKeepsLineage(s.runs, e.id, r);
      PutKeepsRunsOk(s.runs, e.id, r, true);
    }
  }

  /** A step on one run that neither ends its task nor revives its row. */
  lemma QuietStepKeepsInv(s: State, id: RunId, r: Run, c: Config)
    requires Inv(s, c) && s.up && id in s.runs && RunOk(r, true)
    requires r.task == s.runs[id].task && (ActiveRun(r) ==> ActiveRun(s.runs[id]))
    requires r.born == s.runs[id].born && r.row.retryOf == s.runs[id].row.retryOf
    ensures Inv(s.(runs := s.runs[id := r]), c)
  {
    hide RunOk, LineageOk, AllRunsOk, CountsOk;
    QuietStepKeepsCounts(s, id, r, c);
    OneRunStep(s, id, r, c);
  }

  lemma LateWriteKeepsActive(r: Run, w: Pending, now: int)
    ensures ActiveRun(WriteRow(r, w, now)) ==> ActiveRun(r)
  {
  }

  lemma ChildExitsOk(r: Run)
    requires RunOk(r, true)
    ensures RunOk(r.(alive := false), true)
  {
  }

  lemma LateWriteKeepsInv(s: State, id: RunId, w: Pending, now: int, c: Config)
    requires Inv(s, c) && Enabled(s, LateWrite(id, w, now))
    ensures Inv(Next(s, LateWrite(id, w, now), c), c)
  {
    InvParts(s, c);
    hide Inv, RunOk, WriteRow;
    LateWriteOk(s.runs[id], w, now);
    LateWriteKeepsActive(s.runs[id], w, now);
    QuietStepKeepsInv(s, id, WriteRow(s.runs[id], w, now).(pending := s.runs[id].pending - {w}), c);
  }

  lemma ChildExitsKeepsInv(s: State, id: RunId, c: Config)
    requires Inv(s, c) && Enabled(s, ChildExits(id))
    ensures Inv(Next(s, ChildExits(id), c), c)
  {
    InvParts(s, c);
    hide Inv, RunOk;
    ChildExitsOk(s.runs[id]);
    QuietStepKeepsInv(s, id, s.runs[id].(alive := false), c);
  }

  lemma CountInterventionMeans(s: State, id: RunId, c: Config)
    requires Enabled(s, CountIntervention(id))
    ensures s.up && id in s.runs
    ensures var r := s.runs[id];
            && Next(s, CountIntervention(id), c) == s.(runs := s.runs[id := r.(row := IntervenedRow(r.row))])
            && IntervenedRow(r.row).retryOf == r.row.retryOf
            && (ActiveRun(r.(row := IntervenedRow(r.row))) ==> ActiveRun(r))
  {
  }

  lemma CountInterventionKeepsInv(s: State, id: RunId, c: Config)
    requires Inv(s, c) && Enabled(s, CountIntervention(id))
    ensures Inv(Next(s, CountIntervention(id), c), c)
  {
    hide *;
    InvParts(s, c);
    CountInterventionMeans(s, id, c);
    InterventionOk(s.runs[id]);
    QuietStepKeepsInv(s, id, s.runs[id].(row := IntervenedRow(s.runs[id].row)), c);
  }

  lemma LogInterventionMeans(s: State, id: RunId, c: Config)
    requires Enabled(s, LogIntervention(id))
    ensures s.up && id in s.runs
    ensures var r := s.runs[id];
            && Next(s, LogIntervention(id), c) == s.(runs := s.runs[id := Emit(r, Intervention)])
            && Emit(r, Intervention).task == r.task && Emit(r, Intervention).born == r.born
            && Emit(r, Intervention).row == r.row
            && (ActiveRun(Emit(r, Intervention)) ==> ActiveRun(r))
  {
  }

  lemma LogInterventionKeepsInv(s: State, id: RunId, c: Config)
    requires Inv(s, c) && Enabled(s, LogIntervention(id))
    ensures Inv(Next(s, LogIntervention(id), c), c)
  {
    hide *;
    InvParts(s, c);
    LogInterventionMeans(s, id, c);
    InterventionOk(s.runs[id]);
    QuietStepKeepsInv(s, id, Emit(s.runs[id], Intervention), c);
  }

  lemma {:induction false} StepKeepsInv(s: State, e: Step, c: Config)
    requires c.Valid() && Inv(s, c) && Enabled(s, e)
    ensures Inv(Next(s, e, c), c)
  {
    hide Inv, Next, NewRun, ActedRun, CanAct;
    match e
    case Submit(_, _, _, _, _) => SubmitKeepsInv(s, e, c);
    case Act(id, a) => ActKeepsInv(s, id, a, c);
    case LateWrite(id, w, now) => LateWriteKeepsInv(s, id, w, now, c);
    case ChildExits(id) => ChildExitsKeepsInv(s, id, c);
    case CountIntervention(id) => CountInterventionKeepsInv(s, id, c);
    case LogIntervention(id) => LogInterventionKeepsInv(s, id, c);
    case SetIntake(paused) => SetIntakeStepKeepsInv(s, paused, c);
    case Crash => CrashKeepsInv(s, c);
    case Boot(now, paused) => BootKeepsInv(s, now, paused, c);
  }

  lemma SetIntakeStepKeepsInv(s: State, paused: bool, c: Config)
    requires Inv(s, c) && Enabled(s, SetIntake(paused))
    ensures Inv(Next(s, SetIntake(paused), c), c)
  {
    hide Inv;
    SetIntakeKeepsInv(s, paused, c);
  }

  lemma SetIntakeKeepsInv(s: State, paused: bool, c: Config)
    requires Inv(s, c)
    ensures Inv(s.(paused := paused), c)
  {
  }

  lemma InitialInv(c: Config)
    requires c.Valid()
    ensures Inv(Initial(c), c)
  {
    NoTasksNoCounts(Initial(c).runs);
    assert Having(Initial(c).runs, ActiveRun) == {};
  }

  lemma {:induction false} LeadsKeepsInv(before: State, es: seq<Step>, s: State, c: Config)
    requires c.Valid() && Inv(before, c) && Leads(before, es, s, c)
    ensures Inv(s, c)
    decreases |es|
  {
    if es != [] {
      StepKeepsInv(before, es[0], c);
      LeadsKeepsInv(Next(before, es[0], c), es[1..], s, c);
    }
  }
}
