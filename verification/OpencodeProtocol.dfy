/**
 * `OpencodeRunService` and `OpencodeCliRunner.run` as a protocol of atomic steps
 * between awaits. Three assumptions are built in: `submit` counts and creates in one
 * step; a database write handed to its worker thread is applied sooner or later
 * (or the process dies first); the admission lock is never held across an await.
 */
module OpencodeProtocol {
  import opened Wrappers
  import opened Counting
  import opened OpencodeRuns
  import opened OpencodeTelemetry

  datatype Config = Config(queueMaxDepth: nat, maxConcurrentRuns: nat, maxPromptChars: nat) {
    predicate Valid() {
      1 <= maxConcurrentRuns <= queueMaxDepth
    }
  }

  /** Where a task stands; `events` is its `counters["event_count"]`. */
  datatype Phase =
    | Created                                     // not stepped yet
    | Starting                                    // awaits the `running` write
    | Waiting                                     // admitted, awaits the semaphore
    | Executing(events: nat)                      // reads its child's output
    | Reaping(events: nat)                        // reads no more, awaits the child's exit
    | Killing(events: nat)                        // cancelled while reading, awaits the child's exit
    | Cancelling(events: nat)                     // awaits the `cancelled` write
    | Finishing(status: Status, error: string, events: nat)  // awaits the outcome's write

  /** A status write left to its worker thread by a cancelled await. */
  datatype Pending = Pending(status: Status, error: string, events: nat)

  datatype Entry = Entry(number: nat, kind: Kind)

  /**
   * Everything about one run: its row, its task if it has one, whether a child spawned for
   * it is `alive`, its counter entry and its telemetry. `own` holds the lines up to its
   * first terminal line or the death of the process that took it (`open` until then),
   * `later` the ones after; `entered` says whether `_execute` began, `born` how many runs
   * came before.
   */
  datatype Run = Run(row: Row, task: Option<Phase>, alive: bool, pending: set<Pending>, counter: Option<nat>,
                     own: seq<Entry>, open: bool, later: seq<Entry>, entered: bool, born: nat)

  datatype State = State(runs: map<RunId, Run>, admitted: int, free: int, paused: bool, up: bool)

  /** What a run's task does next, or has done to it. */
  datatype Action =
    | Begin
    | MarkRunning(now: int)
    | Acquire
    | SpawnFails(error: string)
    | Output
    | StopReading
    | Exit(status: Status, error: string)
    | Persist(now: int)
    | Cancel
    | Killed

  datatype Step =
    | Submit(id: RunId, prompt: string, sessionId: Option<string>, now: int, retryOf: Option<RunId>)
    | Act(id: RunId, action: Action)
    | LateWrite(id: RunId, write: Pending, now: int)
    | ChildExits(id: RunId)
    | CountIntervention(id: RunId)
    | LogIntervention(id: RunId)
    | SetIntake(paused: bool)
    | Crash
    | Boot(now: int, pausedOnBoot: bool)

  predicate ActiveRun(r: Run) { ActiveRow(r.row) }

  /** Calls of `OpencodeCliRunner.run` past admission and not yet back. */
  predicate Admitted(r: Run) {
    r.task.Some? && (r.task.value.Waiting? || HoldsSemaphore(r))
  }

  predicate HoldsSemaphore(r: Run) {
    r.task.Some? && (r.task.value.Executing? || r.task.value.Reaping? || r.task.value.Killing?)
  }

  /** A child spawned by this process is running. */
  predicate LivingChild(r: Run) { r.alive }

  /** A living child whose run has already given its place in the semaphore back. */
  predicate Orphan(r: Run) { r.alive && !HoldsSemaphore(r) }

  /** One more telemetry line of this run. */
  function Emit(r: Run, kind: Kind): (e: Run)
    ensures e == r.(counter := e.counter, own := e.own, open := e.open, later := e.later)
  {
    var entry := Entry(Number(r.counter), kind);
    if r.open
    then r.(counter := Advanced(r.counter, kind), own := r.own + [entry], open := !kind.Ended?)
    else r.(counter := Advanced(r.counter, kind), later := r.later + [entry])
  }

  function StatusPatch(now: int, w: Pending): Patch {
    if w.status == Running then NO_PATCH.(startedAt := Some(now))
    else if w.status == Cancelled then NO_PATCH.(completedAt := Some(now), eventCount := Some(w.events))
    else NO_PATCH.(completedAt := Some(now), eventCount := Some(w.events), errorDetail := Some(w.error))
  }

  /** A worker thread applies a status write; a refused one changes nothing. */
  function WriteRow(r: Run, w: Pending, now: int): (x: Run)
    ensures x == r.(row := x.row) && x.row.retryOf == r.row.retryOf
  {
    var row := UpdatedRow(r.row, w.status, StatusPatch(now, w));
    if row.Some? then r.(row := row.value) else r
  }

  const RUNNING := Pending(Running, "", 0)

  function EventsOf(p: Phase): nat {
    match p
    case Executing(n) => n
    case Reaping(n) => n
    case Killing(n) => n
    case Cancelling(n) => n
    case Finishing(_, _, n) => n
    case _ => 0
  }

  /** The write a suspended task awaits. */
  function Awaited(p: Phase): Pending {
    match p
    case Cancelling(n) => Pending(Cancelled, "", n)
    case Finishing(status, error, n) => Pending(status, error, n)
    case _ => RUNNING
  }

  function WithTask(r: Run, p: Phase): Run {
    r.(task := Some(p))
  }

  /** `CancelledError` reaches `_execute`'s handler: first the line, then the write. */
  function ToCancelling(r: Run, events: nat): Run {
    WithTask(Emit(r, Ended(Cancelled)), Cancelling(events))
  }

  function NewRun(prompt: string, sessionId: Option<string>, now: int, retryOf: Option<RunId>, born: nat): Run {
    Emit(Run(NewRow(prompt, sessionId, now, retryOf), Some(Created), false, {}, None, [], true, [], false, born),
         Submitted)
  }

  /**
   * `task.cancel()`, by where the task is suspended; a first or a later cancellation alike. One that
   * lands in `_finish` leaves it before any `kill()` to come, and the child as it is.
   */
  function CancelledRun(r: Run, p: Phase): Run {
    match p
    case Created => r.(task := None)
    case Starting => ToCancelling(r.(pending := r.pending + {RUNNING}), 0)
    case Waiting => ToCancelling(r, 0)
    case Executing(n) => WithTask(r, Killing(n))
    case Reaping(n) => ToCancelling(r, n)
    case Killing(n) => ToCancelling(r, n)
    case Cancelling(_) => r.(task := None, pending := r.pending + {Awaited(p)})
    case Finishing(_, _, _) => r.(task := None, pending := r.pending + {Awaited(p)})
  }

  predicate CanAct(p: Phase, alive: bool, a: Action, free: int) {
    match a
    case Begin => p.Created?
    case MarkRunning(_) => p.Starting?
    case Acquire => p.Waiting? && free > 0
    case SpawnFails(error) => p.Waiting? && free > 0 && error != DAEMON_RESTARTED
    case Output => p.Executing?
    case StopReading => p.Executing?
    case Exit(status, error) =>
      p.Reaping? && !alive && status in {Succeeded, Failed, TimedOut} && error != DAEMON_RESTARTED
    case Persist(_) => p.Cancelling? || p.Finishing?
    case Cancel => true
    case Killed => p.Killing? && !alive
  }

  /** The run after its task at phase `p` acts; `refused` is the runner's admission verdict. */
  function ActedRun(r: Run, p: Phase, a: Action, refused: bool): Run {
    match a
    case Begin => WithTask(r, Starting).(entered := true)
    case MarkRunning(now) =>
      var started := Emit(WriteRow(r, RUNNING, now), Started);
      if refused then started.(task := None) else WithTask(started, Waiting)
    case Acquire => WithTask(r, Executing(0)).(alive := true)
    case SpawnFails(error) => WithTask(Emit(r, Ended(Failed)), Finishing(Failed, error, 0))
    case Output => WithTask(Emit(r, Event), Executing(EventsOf(p) + 1))
    case StopReading => WithTask(r, Reaping(EventsOf(p)))
    case Exit(status, error) => WithTask(Emit(r, Ended(status)), Finishing(status, error, EventsOf(p)))
    case Persist(now) => WriteRow(r, Awaited(p), now).(task := None)
    case Cancel => CancelledRun(r, p)
    case Killed => ToCancelling(r, EventsOf(p))
  }

  /** How `_admitted` moves. */
  function AdmittedDelta(p: Phase, a: Action, refused: bool): int {
    match a
    case MarkRunning(_) => if refused then 0 else 1
    case SpawnFails(_) => -1
    case Exit(_, _) => -1
    case Killed => -1
    case Cancel => if p.Waiting? || p.Reaping? || p.Killing? then -1 else 0
    case _ => 0
  }

  /** How the semaphore's value moves. */
  function FreeDelta(p: Phase, a: Action): int {
    match a
    case Acquire => -1
    case Exit(_, _) => 1
    case Killed => 1
    case Cancel => if p.Reaping? || p.Killing? then 1 else 0
    case _ => 0
  }

  predicate Enabled(s: State, e: Step) {
    match e
    case Submit(id, _, _, _, retryOf) => s.up && id !in s.runs && (retryOf.Some? ==> retryOf.value in s.runs)
    case Act(id, a) =>
      s.up && id in s.runs && s.runs[id].task.Some? && CanAct(s.runs[id].task.value, s.runs[id].alive, a, s.free)
    case LateWrite(id, w, _) => s.up && id in s.runs && w in s.runs[id].pending
    case ChildExits(id) => s.up && id in s.runs && s.runs[id].alive
    case CountIntervention(id) => s.up && id in s.runs
    case LogIntervention(id) => s.up && id in s.runs
    case SetIntake(_) => s.up
    case Crash => s.up
    case Boot(_, _) => !s.up
  }

  function CrashedRun(r: Run): Run {
    r.(task := None, alive := false, pending := {}, counter := None, open := false)
  }

  function BootedRun(r: Run, now: int): Run {
    r.(row := BootSweptRow(r.row, now))
  }

  /** The runner's own admission check, which a run started by the service should never fail. */
  predicate RunnerRefuses(s: State, c: Config) {
    s.admitted >= c.queueMaxDepth
  }

  function Next(s: State, e: Step, c: Config): State
    requires Enabled(s, e)
  {
    match e
    case Submit(id, prompt, sessionId, now, retryOf) =>
      if s.paused || |prompt| > c.maxPromptChars || Count(s.runs, ActiveRun) >= c.queueMaxDepth then s
      else s.(runs := s.runs[id := NewRun(prompt, sessionId, now, retryOf, |s.runs|)])
    case Act(id, a) =>
      var p := s.runs[id].task.value;
      State(s.runs[id := ActedRun(s.runs[id], p, a, RunnerRefuses(s, c))],
            s.admitted + AdmittedDelta(p, a, RunnerRefuses(s, c)), s.free + FreeDelta(p, a), s.paused, s.up)
    case LateWrite(id, w, now) =>
      s.(runs := s.runs[id := WriteRow(s.runs[id], w, now).(pending := s.runs[id].pending - {w})])
    case ChildExits(id) => s.(runs := s.runs[id := s.runs[id].(alive := false)])
    case CountIntervention(id) => s.(runs := s.runs[id := s.runs[id].(row := IntervenedRow(s.runs[id].row))])
    case LogIntervention(id) => s.(runs := s.runs[id := Emit(s.runs[id], Intervention)])
    case SetIntake(paused) => s.(paused := paused)
    case Crash => State(map id | id in s.runs :: CrashedRun(s.runs[id]), 0, c.maxConcurrentRuns, s.paused, false)
    case Boot(now, pausedOnBoot) =>
      s.(runs := map id | id in s.runs :: BootedRun(s.runs[id], now), paused := pausedOnBoot, up := true)
  }

  function Initial(c: Config): State {
    State(map[], 0, c.maxConcurrentRuns, false, false)
  }

  /** `s` follows the steps `es` from `before`. */
  ghost predicate Leads(before: State, es: seq<Step>, s: State, c: Config)
    decreases |es|
  {
    if es == [] then s == before
    else Enabled(before, es[0]) && Leads(Next(before, es[0], c), es[1..], s, c)
  }

  // ----- what a run's trace and row look like, phase by phase -----

  function Visible(log: seq<Entry>): seq<Kind> {
    if log == [] then []
    else
      var last := log[|log| - 1].kind;
      Visible(log[..|log| - 1]) + if last == Intervention then [] else [last]
  }

  /** Submitted, then perhaps started and any number of events, then perhaps one terminal line. */
  function Trace(started: bool, events: nat, ended: Option<Status>): seq<Kind> {
    [Submitted] + (if started then [Started] else []) + seq(events, _ => Event)
    + (if ended.Some? then [Ended(ended.value)] else [])
  }

  /** One of the traces a run may leave behind, whenever its process stops. */
  ghost predicate LegalTrace(kinds: seq<Kind>, open: bool) {
    exists started, events, ended ::
      && kinds == Trace(started, events, ended)
      && (started || (events == 0 && ended in {None, Some(Cancelled)}))
      && (open ==> ended == None)
  }

  ghost predicate Numbered(log: seq<Entry>) {
    forall i :: 0 <= i < |log| ==> log[i].number == i
  }

  /** The trace of a run, known exactly while it has a task. */
  ghost predicate TraceOk(r: Run) {
    && Numbered(r.own)
    && (forall i :: 0 <= i < |r.later| ==> r.later[i].kind == Intervention)
    && (r.open ==> r.counter == Some(|r.own|))
    && match r.task
       case None => LegalTrace(Visible(r.own), r.open)
       case Some(p) =>
         match p
         case Created => Visible(r.own) == Trace(false, 0, None) && r.open
         case Starting => Visible(r.own) == Trace(false, 0, None) && r.open
         case Waiting => Visible(r.own) == Trace(true, 0, None) && r.open
         case Executing(n) => Visible(r.own) == Trace(true, n, None) && r.open
         case Reaping(n) => Visible(r.own) == Trace(true, n, None) && r.open
         case Killing(n) => Visible(r.own) == Trace(true, n, None) && r.open
         case Cancelling(n) => EndedWith(r, Cancelled, n)
         case Finishing(status, _, n) => EndedWith(r, status, n) && status in {Succeeded, Failed, TimedOut}
  }

  /** The trace is closed by `status` after `n` events. */
  ghost predicate EndedWith(r: Run, status: Status, n: nat) {
    && !r.open
    && (Visible(r.own) == Trace(true, n, Some(status)) || (n == 0 && status == Cancelled
        && Visible(r.own) == Trace(false, 0, Some(Cancelled))))
  }

  /** The row agrees with its run's writes in flight, trace and task if there is one. */
  ghost predicate RowOk(r: Run, up: bool) {
    && (r.task.Some? ==> up && ActiveRun(r) && (r.entered <==> !r.task.value.Created?))
    && (r.pending != {} ==> up && r.entered && (r.task.None? || r.task.value.Cancelling?))
    && (forall w :: w in r.pending ==>
          || w == RUNNING
          || (Terminal(w.status) && w.error != DAEMON_RESTARTED && r.task.None? && EndedWith(r, w.status, w.events)))
    && (r.task.Some? && r.task.value.Finishing? ==> r.task.value.error != DAEMON_RESTARTED)
    && (r.row.status == Queued ==>
          r.task.None? || r.task.value.Created? || r.task.value.Starting? || r.task.value.Cancelling?)
    && (r.task.Some? && (r.task.value.Created? || r.task.value.Starting?) ==> r.row.status == Queued)
    && (Terminal(r.row.status) && r.row.errorDetail != DAEMON_RESTARTED ==>
        EndedWith(r, r.row.status, r.row.eventCount))
    && (ActiveRun(r) ==> r.row.errorDetail == "")
    && (up && r.entered && r.task.None? && ActiveRun(r) ==> exists w :: w in r.pending && Terminal(w.status))
  }

  /** A living child belongs to a run that holds the semaphore or was cancelled out of it. */
  predicate ChildOk(r: Run, up: bool) {
    r.alive ==> up && r.entered && (r.task.None? || HoldsSemaphore(r) || r.task.value.Cancelling?)
  }

  ghost predicate RunOk(r: Run, up: bool) {
    TraceOk(r) && RowOk(r, up) && ChildOk(r, up)
  }

  ghost predicate AllRunsOk(runs: map<RunId, Run>, up: bool) {
    forall id :: id in runs ==> RunOk(runs[id], up)
  }

  /** A run that retries or nudges another came after it. */
  predicate LinkOk(runs: map<RunId, Run>, id: RunId)
    requires id in runs
  {
    var earlier := runs[id].row.retryOf;
    && runs[id].born < |runs|
    && (earlier.Some? ==> earlier.value in runs && runs[earlier.value].born < runs[id].born)
  }

  ghost predicate LineageOk(runs: map<RunId, Run>) {
    forall id :: id in runs ==> LinkOk(runs, id)
  }

  ghost predicate CountsOk(s: State, c: Config) {
    && s.admitted == Count(s.runs, Admitted)
    && s.free == c.maxConcurrentRuns - Count(s.runs, HoldsSemaphore)
    && s.free >= 0
    && Count(s.runs, ActiveRun) <= c.queueMaxDepth
  }

  ghost predicate Inv(s: State, c: Config) {
    && CountsOk(s, c)
    && LineageOk(s.runs)
    && AllRunsOk(s.runs, s.up)
  }

  // ----- every step keeps it, run by run -----

  lemma EmitVisible(r: Run, kind: Kind)
    requires Numbered(r.own) && (r.open ==> r.counter == Some(|r.own|) || (r.own == [] && r.counter == None))
    ensures var r' := Emit(r, kind);
            && Numbered(r'.own)
            && r'.open == (r.open && !kind.Ended?)
            && (r.open ==> Visible(r'.own) == Visible(r.own) + (if kind == Intervention then [] else [kind]))
            && (r.open ==> r'.later == r.later)
            && (r'.open ==> r'.counter == Some(|r'.own|))
            && (!r.open ==>
                  && r'.own == r.own && r'.later == r.later + [r'.later[|r'.later| - 1]]
                  && r'.later[|r'.later| - 1].kind == kind)
  {
    if r.open {
      var log := r.own + [Entry(Number(r.counter), kind)];
      assert log[..|log| - 1] == r.own;
    }
  }

  lemma TraceGrows(started: bool, n: nat, status: Status)
    ensures Trace(false, 0, None) == [Submitted]
    ensures Trace(false, 0, None) + [Started] == Trace(true, 0, None)
    ensures Trace(true, n, None) + [Event] == Trace(true, n + 1, None)
    ensures Trace(started, n, None) + [Ended(status)] == Trace(started, n, Some(status))
  {
  }

  /** Whatever a run with a task was doing, what it leaves behind is a legal trace. */
  lemma StoppedTraceIsLegal(r: Run)
    requires TraceOk(r)
    ensures LegalTrace(Visible(r.own), r.open)
  {
    match r.task
    case None =>
    case Some(p) =>
      match p
      case Created => assert Visible(r.own) == Trace(false, 0, None);
      case Starting => assert Visible(r.own) == Trace(false, 0, None);
      case Waiting => assert Visible(r.own) == Trace(true, 0, None);
      case Executing(n) => assert Visible(r.own) == Trace(true, n, None);
      case Reaping(n) => assert Visible(r.own) == Trace(true, n, None);
      case Killing(n) => assert Visible(r.own) == Trace(true, n, None);
      case Cancelling(n) => ClosedTraceIsLegal(r, Cancelled, n);
      case Finishing(status, _, n) => ClosedTraceIsLegal(r, status, n);
  }

  lemma ClosedTraceIsLegal(r: Run, status: Status, n: nat)
    requires EndedWith(r, status, n)
    ensures LegalTrace(Visible(r.own), r.open)
  {
    if Visible(r.own) == Trace(true, n, Some(status)) {
    } else {
      assert Visible(r.own) == Trace(false, 0, Some(Cancelled));
    }
  }

  lemma NewRunOk(prompt: string, sessionId: Option<string>, now: int, retryOf: Option<RunId>, born: nat)
    ensures RunOk(NewRun(prompt, sessionId, now, retryOf, born), true)
  {
    var blank := Run(NewRow(prompt, sessionId, now, retryOf), Some(Created), false, {}, None, [], true, [], false,
        born);
    EmitVisible(blank, Submitted);
    TraceGrows(false, 0, Cancelled);
    assert Visible(NewRun(prompt, sessionId, now, retryOf, born).own) == [] + [Submitted];
  }

  lemma MarkRunningOk(r: Run, now: int)
    requires RunOk(r, true) && r.task == Some(Starting)
    ensures RunOk(ActedRun(r, Starting, MarkRunning(now), false), true)
  {
    EmitVisible(WriteRow(r, RUNNING, now), Started);
    TraceGrows(true, 0, Cancelled);
  }

  lemma OutputOk(r: Run, n: nat)
    requires RunOk(r, true) && r.task == Some(Executing(n))
    ensures RunOk(ActedRun(r, Executing(n), Output, false), true)
  {
    EmitVisible(r, Event);
    TraceGrows(true, n, Cancelled);
  }

  lemma ExitOk(r: Run, n: nat, status: Status, error: string)
    requires RunOk(r, true) && r.task == Some(Reaping(n)) && CanAct(Reaping(n), r.alive, Exit(status, error), 0)
    ensures RunOk(ActedRun(r, Reaping(n), Exit(status, error), false), true)
  {
    EmitVisible(r, Ended(status));
    TraceGrows(true, n, status);
  }

  lemma SpawnFailsOk(r: Run, error: string)
    requires RunOk(r, true) && r.task == Some(Waiting) && error != DAEMON_RESTARTED
    ensures RunOk(ActedRun(r, Waiting, SpawnFails(error), false), true)
  {
    EmitVisible(r, Ended(Failed));
    TraceGrows(true, 0, Failed);
  }

  /** The cancellation handler, reached from any phase before the outcome. */
  lemma ToCancellingOk(r: Run, n: nat, started: bool)
    requires Numbered(r.own) && r.open && r.counter == Some(|r.own|)
    requires forall i :: 0 <= i < |r.later| ==> r.later[i].kind == Intervention
    requires Visible(r.own) == Trace(started, n, None) && (started || n == 0)
    requires ActiveRun(r) && r.row.errorDetail == "" && r.entered && r.pending <= {RUNNING}
    ensures RunOk(ToCancelling(r, n), true)
  {
    EmitVisible(r, Ended(Cancelled));
    TraceGrows(started, n, Cancelled);
  }

  lemma PersistOk(r: Run, p: Phase, now: int)
    requires RunOk(r, true) && r.task == Some(p) && CanAct(p, r.alive, Persist(now), 0)
    ensures RunOk(ActedRun(r, p, Persist(now), false), true)
    ensures Terminal(ActedRun(r, p, Persist(now), false).row.status)
  {
    StoppedTraceIsLegal(r);
  }

  lemma CancelOk(r: Run, p: Phase)
    requires RunOk(r, true) && r.task == Some(p)
    ensures RunOk(CancelledRun(r, p), true)
  {
    match p
    case Created => StoppedTraceIsLegal(r);
    case Starting => ToCancellingOk(r.(pending := r.pending + {RUNNING}), 0, false);
    case Waiting => ToCancellingOk(r, 0, true);
    case Executing(n) =>
    case Reaping(n) => ToCancellingOk(r, n, true);
    case Killing(n) => ToCancellingOk(r, n, true);
    case Cancelling(n) => StoppedTraceIsLegal(r); assert Awaited(p) in CancelledRun(r, p).pending;
    case Finishing(_, _, n) => StoppedTraceIsLegal(r); assert Awaited(p) in CancelledRun(r, p).pending;
  }

  lemma ActKeepsRun(r: Run, p: Phase, a: Action, free: int)
    requires RunOk(r, true) && r.task == Some(p) && CanAct(p, r.alive, a, free)
    ensures RunOk(ActedRun(r, p, a, false), true)
  {
    match a
    case Begin =>
    case MarkRunning(now) => MarkRunningOk(r, now);
    case Acquire =>
    case SpawnFails(error) => SpawnFailsOk(r, error);
    case StopReading =>
    case Output => OutputOk(r, p.events);
    case Exit(status, error) => ExitOk(r, p.events, status, error);
    case Persist(now) => PersistOk(r, p, now);
    case Cancel => CancelOk(r, p);
    case Killed => ToCancellingOk(r, p.events, true);
  }

  lemma LateWriteOk(r: Run, w: Pending, now: int)
    requires RunOk(r, true) && w in r.pending
    ensures RunOk(WriteRow(r, w, now).(pending := r.pending - {w}), true)
  {
    var r' := WriteRow(r, w, now).(pending := r.pending - {w});
    if r'.entered && r'.task.None? && ActiveRun(r') {
      var v :| v in r.pending && Terminal(v.status);
      assert v in r'.pending;
    }
  }

  lemma InterventionOk(r: Run)
    requires RunOk(r, true)
    ensures RunOk(Emit(r, Intervention), true)
    ensures RunOk(r.(row := IntervenedRow(r.row)), true)
  {
    EmitVisible(r, Intervention);
    StoppedTraceIsLegal(r);
    assert Visible(Emit(r, Intervention).own) == Visible(r.own);
  }

  lemma CrashOk(r: Run)
    requires RunOk(r, true)
    ensures RunOk(CrashedRun(r), false)
  {
    StoppedTraceIsLegal(r);
  }

  lemma BootOk(r: Run, now: int)
    requires RunOk(r, false)
    ensures RunOk(BootedRun(r, now), true)
    ensures !ActiveRun(BootedRun(r, now))
  {
  }
}
