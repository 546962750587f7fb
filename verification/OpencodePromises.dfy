/** What the run service promises, over every interleaving of its steps, crashes and boots. */
module OpencodePromises {
  import opened Wrappers
  import opened Counting
  import opened OpencodeRuns
  import opened OpencodeTelemetry
  import opened OpencodeProtocol
  import opened OpencodeInvariant

  /** Admission, backlog and concurrency bounds in every reachable state. */
  lemma BacklogIsBounded(es: seq<Step>, s: State, c: Config)
    requires c.Valid() && Leads(Initial(c), es, s, c)
    ensures s.admitted == Count(s.runs, Admitted) <= Count(s.runs, ActiveRun) <= c.queueMaxDepth
    ensures Count(s.runs, HoldsSemaphore) <= c.maxConcurrentRuns
    ensures forall id :: id in s.runs && s.runs[id].task == Some(Starting) ==> !RunnerRefuses(s, c)
  {
    InitialInv(c);
    LeadsKeepsInv(Initial(c), es, s, c);
    CountAtMost(s.runs, Admitted, ActiveRun);
    forall id | id in s.runs && s.runs[id].task == Some(Starting) ensures !RunnerRefuses(s, c) {
      RunnerNeverRefuses(s, id, c);
    }
  }

  /**
   * Every task that entered `_execute` and is over has a terminal row, or its terminal
   * write is in flight; with no write in flight the row is terminal. And no status update
   * of a live task is ever refused.
   */
  lemma EnteredTasksEndTerminal(es: seq<Step>, s: State, id: RunId, c: Config)
    requires c.Valid() && Leads(Initial(c), es, s, c) && s.up && id in s.runs && s.runs[id].entered
    ensures s.runs[id].task.None? ==>
              Terminal(s.runs[id].row.status) || exists w :: w in s.runs[id].pending && Terminal(w.status)
    ensures s.runs[id].task.None? && s.runs[id].pending == {} ==> Terminal(s.runs[id].row.status)
    ensures s.runs[id].task.Some? ==> UpdatedRow(s.runs[id].row, Cancelled, NO_PATCH).Some?
  {
    InitialInv(c);
    LeadsKeepsInv(Initial(c), es, s, c);
  }

  /**
   * The trace of every run: numbered from 0 without a gap, and, interventions aside, one
   * of the legal traces; a terminal row not written by the boot sweep closes that trace
   * with its own status and counts exactly its events.
   */
  lemma TracesAreLegal(es: seq<Step>, s: State, id: RunId, c: Config)
    requires c.Valid() && Leads(Initial(c), es, s, c) && id in s.runs
    ensures Numbered(s.runs[id].own) && LegalTrace(Visible(s.runs[id].own), s.runs[id].open)
    ensures forall i :: 0 <= i < |s.runs[id].later| ==> s.runs[id].later[i].kind == Intervention
    ensures var row := s.runs[id].row;
            Terminal(row.status) && row.errorDetail != DAEMON_RESTARTED ==>
                EndedWith(s.runs[id], row.status, row.eventCount)
  {
    InitialInv(c);
    LeadsKeepsInv(Initial(c), es, s, c);
    StoppedTraceIsLegal(s.runs[id]);
  }

  // ----- no deadlock: every task can always be driven to its end -----


  /** What a later row may look like: only forward, and a terminal row only counts interventions. */
  predicate RowMovesForward(a: Row, b: Row) {
    && Rank(a.status) <= Rank(b.status)
    && a.retryOf == b.retryOf && a.prompt == b.prompt
    && a.interventions <= b.interventions
    && (Terminal(a.status) ==> b == a.(interventions := b.interventions))
  }

  /** The one run a step is about, before and after it. */
  lemma StepMovesItsRun(s: State, e: Step, id: RunId, c: Config)
    requires id in s.runs && RunOk(s.runs[id], s.up) && Enabled(s, e)
    requires e.Act? || e.LateWrite? || e.ChildExits? || e.CountIntervention? || e.LogIntervention?
    requires e.id == id
    ensures Next(s, e, c).runs.Keys == s.runs.Keys
    ensures RowMovesForward(s.runs[id].row, Next(s, e, c).runs[id].row)
    ensures Next(s, e, c).runs[id].born == s.runs[id].born
    ensures forall k :: k in s.runs && k != id ==> Next(s, e, c).runs[k] == s.runs[k]
  {
    match e
    case Act(_, a) => ActMovesForward(s.runs[id], s.runs[id].task.value, a, RunnerRefuses(s, c), s.free);
    case LateWrite(_, w, now) => WriteMovesForward(s.runs[id], w, now);
    case ChildExits(_) =>
    case CountIntervention(_) =>
    case LogIntervention(_) =>
  }

  /** A submission, the intake switch, a crash or a boot: every earlier run keeps its row, or is swept. */
  lemma WideStepMovesForward(s: State, e: Step, id: RunId, c: Config)
    requires id in s.runs && Enabled(s, e)
    requires e.Submit? || e.SetIntake? || e.Crash? || e.Boot?
    ensures id in Next(s, e, c).runs && RowMovesForward(s.runs[id].row, Next(s, e, c).runs[id].row)
    ensures Next(s, e, c).runs[id].born == s.runs[id].born
  {
    match e
    case Submit(x, _, _, _, _) => assert x != id;
    case SetIntake(_) =>
    case Crash =>
    case Boot(_, _) =>
  }

  lemma StepMovesForward(s: State, e: Step, id: RunId, c: Config)
    requires AllRunsOk(s.runs, s.up) && Enabled(s, e) && id in s.runs
    ensures id in Next(s, e, c).runs && RowMovesForward(s.runs[id].row, Next(s, e, c).runs[id].row)
    ensures Next(s, e, c).runs[id].born == s.runs[id].born
  {
    if e.Submit? || e.SetIntake? || e.Crash? || e.Boot? {
      WideStepMovesForward(s, e, id, c);
    } else {
      StepMovesItsRun(s, e, e.id, c);
    }
  }

  lemma WriteMovesForward(r: Run, w: Pending, now: int)
    requires w == RUNNING || Terminal(w.status)
    ensures RowMovesForward(r.row, WriteRow(r, w, now).row)
    ensures WriteRow(r, w, now).born == r.born
  {
  }

  lemma ActMovesForward(r: Run, p: Phase, a: Action, refused: bool, free: int)
    requires RunOk(r, true) && r.task == Some(p) && CanAct(p, r.alive, a, free)
    ensures RowMovesForward(r.row, ActedRun(r, p, a, refused).row)
    ensures ActedRun(r, p, a, refused).born == r.born
  {
  }

  /** Across every run, crashes and reboots included, a row only moves forward. */
  lemma {:induction false} RowsOnlyMoveForward(before: State, es: seq<Step>, s: State, id: RunId, c: Config)
    requires c.Valid() && Inv(before, c) && Leads(before, es, s, c) && id in before.runs
    ensures id in s.runs && RowMovesForward(before.runs[id].row, s.runs[id].row)
    decreases |es|
  {
    if es != [] {
      StepKeepsInv(before, es[0], c);
      StepMovesForward(before, es[0], id, c);
      RowsOnlyMoveForward(Next(before, es[0], c), es[1..], s, id, c);
    }
  }

  /** The runs `id` retries or nudges, nearest first; it ends because each one is older. */
  function Lineage(runs: map<RunId, Run>, id: RunId): seq<RunId>
    requires LineageOk(runs) && id in runs
    decreases runs[id].born
  {
    match runs[id].row.retryOf
    case None => [id]
    case Some(earlier) => [id] + Lineage(runs, earlier)
  }

  /** No run is its own ancestor. */
  lemma {:induction false} LineageHasNoRepeats(runs: map<RunId, Run>, id: RunId)
    requires LineageOk(runs) && id in runs
    ensures forall x :: x in Lineage(runs, id) ==> x in runs && runs[x].born <= runs[id].born
    ensures forall i, j :: 0 <= i < j < |Lineage(runs, id)| ==> Lineage(runs, id)[i] != Lineage(runs, id)[j]
    decreases runs[id].born
  {
    if runs[id].row.retryOf.Some? {
      var earlier := runs[id].row.retryOf.value;
      LineageHasNoRepeats(runs, earlier);
      assert id !in Lineage(runs, earlier);
    }
  }
}
