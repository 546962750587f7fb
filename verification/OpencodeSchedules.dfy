/**
 * What the daemon can still do from a state of the run protocol: end every task, and,
 * once a cancellation has left a child behind, run more children than its limit.
 */
module OpencodeSchedules {
  import opened Wrappers
  import opened Counting
  import opened OpencodeRuns
  import opened OpencodeProtocol
  import opened OpencodeTelemetry
  import opened OpencodeInvariant

  lemma LeadsOn(a: State, es: seq<Step>, b: State, fs: seq<Step>, s: State, c: Config)
    requires Leads(a, es, b, c) && Leads(b, fs, s, c)
    ensures Leads(a, es + fs, s, c)
    decreases |es|
  {
    if es == [] {
      assert es + fs == fs;
    } else {
      assert (es + fs)[1..] == es[1..] + fs;
      LeadsOn(Next(a, es[0], c), es[1..], b, fs, s, c);
    }
  }

  lemma LeadsFirst(s: State, e: Step, rest: seq<Step>, end: State, c: Config)
    requires Enabled(s, e) && Leads(Next(s, e, c), rest, end, c)
    ensures Leads(s, [e] + rest, end, c)
  {
    assert ([e] + rest)[1..] == rest;
  }

  predicate Cancels(e: Step) {
    e.Act? && e.action.Cancel?
  }

  /** A task acts of its own accord, or a child exits. */
  predicate Quiet(e: Step) {
    (e.Act? && !Cancels(e)) || e.ChildExits?
  }

  predicate NoCancel(es: seq<Step>) {
    forall i :: 0 <= i < |es| ==> !Cancels(es[i])
  }

  /** A row that stays active until the next boot: its task was cancelled before its first step. */
  predicate Stuck(r: Run) {
    ActiveRun(r) && r.task.None? && !r.entered
  }

  // ----- every task can always be driven to its end -----

  /** How many steps a task is from its end, at most, when nothing cancels it. */
  function Remaining(r: Run): nat {
    match r.task
    case None => 0
    case Some(Created) => 7
    case Some(Starting) => 6
    case Some(Waiting) => 5
    case Some(Executing(_)) => 4
    case Some(Reaping(_)) => if r.alive then 3 else 2
    case Some(Killing(_)) => if r.alive then 3 else 2
    case Some(_) => 1
  }

  function AtLeast(k: nat): Run -> bool {
    (r: Run) => Remaining(r) >= k
  }

  function Work(runs: map<RunId, Run>): nat {
    Count(runs, AtLeast(1)) + Count(runs, AtLeast(2)) + Count(runs, AtLeast(3)) + Count(runs, AtLeast(4))
    + Count(runs, AtLeast(5)) + Count(runs, AtLeast(6)) + Count(runs, AtLeast(7))
  }

  lemma WorkShrinks(runs: map<RunId, Run>, id: RunId, r: Run)
    requires id in runs && Remaining(r) < Remaining(runs[id])
    ensures Work(runs[id := r]) < Work(runs)
  {
    hide Count;
    CountUpdate(runs, id, r, AtLeast(1));
    CountUpdate(runs, id, r, AtLeast(2));
    CountUpdate(runs, id, r, AtLeast(3));
    CountUpdate(runs, id, r, AtLeast(4));
    CountUpdate(runs, id, r, AtLeast(5));
    CountUpdate(runs, id, r, AtLeast(6));
    CountUpdate(runs, id, r, AtLeast(7));
  }

  /** The step that brings a task nearer its end; a waiting task needs a free place. */
  function Forward(id: RunId, r: Run): Step
    requires r.task.Some?
  {
    match r.task.value
    case Created => Act(id, Begin)
    case Starting => Act(id, MarkRunning(0))
    case Waiting => Act(id, Acquire)
    case Executing(_) => Act(id, StopReading)
    case Reaping(_) => if r.alive then ChildExits(id) else Act(id, Exit(Succeeded, ""))
    case Killing(_) => if r.alive then ChildExits(id) else Act(id, Killed)
    case Cancelling(_) => Act(id, Persist(0))
    case Finishing(_, _, _) => Act(id, Persist(0))
  }

  /** Some task can go forward: if all that are left wait, the semaphore is free. */
  lemma SomeTaskMoves(s: State, c: Config) returns (id: RunId)
    requires c.Valid() && CountsOk(s, c) && s.up
    requires exists k :: k in s.runs && s.runs[k].task.Some?
    ensures id in s.runs && s.runs[id].task.Some? && Enabled(s, Forward(id, s.runs[id]))
  {
    if k :| k in s.runs && s.runs[k].task.Some? && !s.runs[k].task.value.Waiting? {
      id := k;
    } else {
      id :| id in s.runs && s.runs[id].task.Some?;
      assert Having(s.runs, HoldsSemaphore) == {};
      hide CountsOk;
    }
  }

  /** The run after it went forward. */
  function Forwarded(r: Run): Run
    requires r.task.Some?
  {
    match Forward("", r)
    case Act(_, a) => ActedRun(r, r.task.value, a, false)
    case _ => r.(alive := false)
  }

  /** Going forward neither orphans a child nor strands a row. */
  lemma ForwardedComesNearer(r: Run)
    requires r.task.Some? && RowOk(r, true) && ChildOk(r, true)
    ensures Remaining(Forwarded(r)) < Remaining(r)
    ensures Orphan(Forwarded(r)) == Orphan(r) && Stuck(Forwarded(r)) == Stuck(r)
  {
    assert ActiveRun(r) && (r.entered <==> !r.task.value.Created?);
    hide RowOk, ActiveRun, Emit, WriteRow;
    match r.task.value
    case Created =>
    case Starting =>
    case Waiting =>
    case Executing(_) =>
    case Reaping(_) =>
    case Killing(_) =>
    case Cancelling(_) =>
    case Finishing(_, _, _) =>
  }

  lemma ForwardRun(s: State, id: RunId, c: Config)
    requires c.Valid() && Inv(s, c) && s.up && id in s.runs && s.runs[id].task.Some?
    requires Enabled(s, Forward(id, s.runs[id]))
    ensures Next(s, Forward(id, s.runs[id]), c).runs == s.runs[id := Forwarded(s.runs[id])]
    ensures Next(s, Forward(id, s.runs[id]), c).up && Quiet(Forward(id, s.runs[id]))
  {
    hide Inv, ActedRun, CanAct;
    match Forward(id, s.runs[id])
    case Act(_, a) => NextAct(s, id, a, c);
    case _ =>
  }

  lemma RunParts(s: State, c: Config)
    requires Inv(s, c)
    ensures CountsOk(s, c)
    ensures forall id :: id in s.runs ==> RowOk(s.runs[id], s.up) && ChildOk(s.runs[id], s.up)
  {
    hide TraceOk, RowOk, ChildOk, CountsOk;
    forall id | id in s.runs ensures RowOk(s.runs[id], s.up) && ChildOk(s.runs[id], s.up) {
      assert RunOk(s.runs[id], s.up);
    }
  }

  lemma SameHaving(runs: map<RunId, Run>, id: RunId, r: Run, p: Run -> bool)
    requires id in runs && p(r) == p(runs[id])
    ensures Having(runs[id := r], p) == Having(runs, p)
  {
  }

  /**
   * From every state with the invariant the daemon can run every task to its end, with
   * no cancellation and no crash: no wait for the semaphore is ever hopeless. Children
   * left behind may all the while stay alive.
   */
  lemma {:induction false} EveryTaskCanFinish(s: State, c: Config) returns (es: seq<Step>, end: State)
    requires c.Valid() && Inv(s, c) && s.up
    ensures Leads(s, es, end, c) && Inv(end, c) && end.up
    ensures forall i :: 0 <= i < |es| ==> Quiet(es[i])
    ensures forall id :: id in end.runs ==> end.runs[id].task.None?
    ensures Having(end.runs, Orphan) == Having(s.runs, Orphan) && Having(end.runs, Stuck) == Having(s.runs, Stuck)
    decreases Work(s.runs)
  {
    hide Inv, Work, Having, Next, Quiet, Orphan, Stuck, Remaining, Forward, Forwarded, RowOk, ChildOk, CountsOk,
      Enabled;
    if k :| k in s.runs && s.runs[k].task.Some? {
      RunParts(s, c);
      var id := SomeTaskMoves(s, c);
      var e, r := Forward(id, s.runs[id]), Forwarded(s.runs[id]);
      StepKeepsInv(s, e, c);
      ForwardRun(s, id, c);
      ForwardedComesNearer(s.runs[id]);
      WorkShrinks(s.runs, id, r);
      SameHaving(s.runs, id, r, Orphan);
      SameHaving(s.runs, id, r, Stuck);
      var rest;
      rest, end := EveryTaskCanFinish(Next(s, e, c), c);
      LeadsFirst(s, e, rest, end, c);
      es := [e] + rest;
    } else {
      es, end := [], s;
    }
  }

  // ----- children left behind, and what they do to the concurrency limit -----

  /** The cancellation lands while a living child is being reaped. */
  predicate Abandons(s: State, e: Step) {
    && Cancels(e) && e.id in s.runs && s.runs[e.id].alive && s.runs[e.id].task.Some?
    && (s.runs[e.id].task.value.Reaping? || s.runs[e.id].task.value.Killing?)
  }

  lemma ActOrphans(r: Run, p: Phase, a: Action, free: int)
    requires ChildOk(r, true) && r.task == Some(p) && CanAct(p, r.alive, a, free)
    ensures Orphan(ActedRun(r, p, a, false)) <==>
              Orphan(r) || (a.Cancel? && r.alive && (p.Reaping? || p.Killing?))
  {
    hide Emit, WriteRow;
    match p
    case Created =>
    case Starting =>
    case Waiting =>
    case Executing(_) =>
    case Reaping(_) =>
    case Killing(_) =>
    case Cancelling(_) =>
    case Finishing(_, _, _) =>
  }

  /** The steps about one run that exists. */
  predicate OneRun(e: Step) {
    e.Act? || e.LateWrite? || e.ChildExits? || e.CountIntervention? || e.LogIntervention?
  }

  lemma ActLeavesTask(r: Run, p: Phase, a: Action)
    requires a.Cancel? && (p.Reaping? || p.Killing?)
    ensures ActedRun(r, p, a, false).task.Some?
  {
    hide Emit;
  }

  /** What one action means for the run's child and row. */
  lemma ActMoves(s: State, id: RunId, a: Action, c: Config) returns (r: Run)
    requires Inv(s, c) && Enabled(s, Act(id, a))
    ensures id in s.runs && s.up && s.runs[id].task.Some? && Next(s, Act(id, a), c).runs == s.runs[id := r]
    ensures Orphan(r) <==> Orphan(s.runs[id]) || Abandons(s, Act(id, a))
    ensures Abandons(s, Act(id, a)) ==> r.task.Some?
  {
    RunParts(s, c);
    NextAct(s, id, a, c);
    hide *;
    var p := s.runs[id].task.value;
    r := ActedRun(s.runs[id], p, a, false);
    ActOrphans(s.runs[id], p, a, s.free);
    AbandonsMeans(s, id, a);
    if a.Cancel? && (p.Reaping? || p.Killing?) {
      ActLeavesTask(s.runs[id], p, a);
    }
  }

  lemma AbandonsMeans(s: State, id: RunId, a: Action)
    requires id in s.runs && s.runs[id].task.Some?
    ensures var r, p := s.runs[id], s.runs[id].task.value;
            Abandons(s, Act(id, a)) <==> a.Cancel? && r.alive && (p.Reaping? || p.Killing?)
  {
  }

  /** Such a step orphans a child exactly if it abandons it, and strands nothing for good. */
  lemma OneRunMoves(s: State, e: Step, c: Config) returns (r: Run)
    requires Inv(s, c) && Enabled(s, e) && OneRun(e)
    ensures e.id in s.runs && s.up && Next(s, e, c).runs == s.runs[e.id := r]
    ensures Orphan(r) ==> Orphan(s.runs[e.id]) || Abandons(s, e)
    ensures Abandons(s, e) ==> Orphan(r) && !Orphan(s.runs[e.id])
    ensures Stuck(s.runs[e.id]) ==> Stuck(r)
    ensures Abandons(s, e) ==> !Stuck(r)
  {
    RunParts(s, c);
    assert e.LateWrite? ==> s.runs[e.id].entered;
    hide Inv, RowOk, ChildOk, CanAct, ActedRun, Emit, WriteRow;
    match e
    case Act(id, a) =>
      r := ActMoves(s, id, a, c);
      if Abandons(s, e) {
        assert s.runs[id].alive && HoldsSemaphore(s.runs[id]);
      }
    case LateWrite(id, w, now) => r := WriteRow(s.runs[id], w, now).(pending := s.runs[id].pending - {w});
    case ChildExits(id) => r := s.runs[id].(alive := false);
    case CountIntervention(id) => r := s.runs[id].(row := IntervenedRow(s.runs[id].row));
    case LogIntervention(id) => r := Emit(s.runs[id], Intervention);
  }

  lemma SubmitOrphans(s: State, e: Step, c: Config)
    requires Enabled(s, e) && e.Submit?
    ensures Count(Next(s, e, c).runs, Orphan) == Count(s.runs, Orphan)
    ensures Count(Next(s, e, c).runs, Stuck) == Count(s.runs, Stuck)
  {
    hide Emit;
    var r := NewRun(e.prompt, e.sessionId, e.now, e.retryOf, |s.runs|);
    hide ActiveRun;
    CountUpdate(s.runs, e.id, r, Orphan);
    CountUpdate(s.runs, e.id, r, Stuck);
  }

  lemma NoneAlive(runs: map<RunId, Run>)
    requires forall id :: id in runs ==> !runs[id].alive
    ensures Count(runs, Orphan) == 0
  {
    assert Having(runs, Orphan) == {};
  }

  /** A submission, the intake switch, a crash or a boot orphans no child; only the last two end orphans. */
  lemma WideStepOrphans(s: State, e: Step, c: Config)
    requires Inv(s, c) && Enabled(s, e) && !OneRun(e)
    ensures Count(Next(s, e, c).runs, Orphan) <= Count(s.runs, Orphan)
    ensures Count(Next(s, e, c).runs, Orphan) == 0 || Count(Next(s, e, c).runs, Stuck) >= Count(s.runs, Stuck)
  {
    RunParts(s, c);
    hide Inv, RowOk, NewRun, Count;
    match e
    case Submit(_, _, _, _, _) => SubmitOrphans(s, e, c);
    case SetIntake(_) =>
    case Crash => NoneAlive(Next(s, e, c).runs);
    case Boot(_, _) => NoneAlive(Next(s, e, c).runs);
  }

  /** Children are orphaned by exactly the cancellations that abandon them, one by one. */
  lemma OrphansAreAbandoned(s: State, e: Step, c: Config)
    requires Inv(s, c) && Enabled(s, e)
    ensures if Abandons(s, e) then Count(Next(s, e, c).runs, Orphan) == Count(s.runs, Orphan) + 1
            else Count(Next(s, e, c).runs, Orphan) <= Count(s.runs, Orphan)
    ensures Count(Next(s, e, c).runs, Orphan) == 0 || Count(Next(s, e, c).runs, Stuck) >= Count(s.runs, Stuck)
    ensures Abandons(s, e) ==> Count(Next(s, e, c).runs, Stuck) == Count(s.runs, Stuck) && Next(s, e, c).up
  {
    hide Inv, Orphan, Stuck;
    if OneRun(e) {
      var r := OneRunMoves(s, e, c);
      hide Next;
      CountUpdate(s.runs, e.id, r, Orphan);
      CountUpdate(s.runs, e.id, r, Stuck);
    } else {
      WideStepOrphans(s, e, c);
    }
  }

  lemma UnionSize<T>(a: set<T>, b: set<T>, c: set<T>)
    requires a <= b + c
    ensures |a| <= |b| + |c|
    ensures b !! c && b + c <= a ==> |b| + |c| <= |a|
  {
    SubsetSize(a, b + c);
    assert b + c == b + (c - b);
    SubsetSize(c - b, c);
    if b !! c && b + c <= a {
      SubsetSize(b + c, a);
    }
  }

  lemma LivingOrOrphan(runs: map<RunId, Run>)
    ensures Count(runs, LivingChild) <= Count(runs, HoldsSemaphore) + Count(runs, Orphan)
  {
    UnionSize(Having(runs, LivingChild), Having(runs, HoldsSemaphore), Having(runs, Orphan));
  }

  lemma HoldersAreNotStuck(runs: map<RunId, Run>)
    requires forall id :: id in runs && HoldsSemaphore(runs[id]) ==> ActiveRun(runs[id])
    ensures Count(runs, HoldsSemaphore) + Count(runs, Stuck) <= Count(runs, ActiveRun)
  {
    var holders, stuck := Having(runs, HoldsSemaphore), Having(runs, Stuck);
    hide ActiveRun;
    SubsetSize(holders + stuck, Having(runs, ActiveRun));
    UnionSize(holders + stuck, holders, stuck);
  }

  /** Every living child holds a place in the semaphore or is an orphan; stuck rows hold none. */
  lemma ChildrenAndPlaces(s: State, c: Config)
    requires Inv(s, c)
    ensures Count(s.runs, LivingChild) <= Count(s.runs, HoldsSemaphore) + Count(s.runs, Orphan)
    ensures Count(s.runs, HoldsSemaphore) <= c.maxConcurrentRuns
    ensures Count(s.runs, HoldsSemaphore) + Count(s.runs, Stuck) <= c.queueMaxDepth
  {
    RunParts(s, c);
    hide Inv, ChildOk, Count, LivingChild, Orphan, Stuck, ActiveRun;
    LivingOrOrphan(s.runs);
    HoldersAreNotStuck(s.runs);
  }

  function Smaller(a: int, b: int): int {
    if a < b then a else b
  }

  /** The most runs that can hold a place at once before the next boot. */
  function Places(s: State, c: Config): int {
    Smaller(c.maxConcurrentRuns, c.queueMaxDepth - Count(s.runs, Stuck))
  }

  /** Some continuation without a cancellation runs more children than the limit. */
  ghost predicate CanOverrun(s: State, c: Config) {
    exists es, t :: Leads(s, es, t, c) && NoCancel(es) && Count(t.runs, LivingChild) > c.maxConcurrentRuns
  }

  lemma {:induction false} OrphansBoundChildren(s: State, es: seq<Step>, t: State, c: Config)
    requires c.Valid() && Inv(s, c) && Leads(s, es, t, c) && NoCancel(es)
    requires Count(s.runs, Orphan) + Places(s, c) <= c.maxConcurrentRuns
    ensures Count(t.runs, LivingChild) <= c.maxConcurrentRuns
    decreases |es|
  {
    hide Inv, Next, LivingChild, Orphan, Stuck;
    if es == [] {
      ChildrenAndPlaces(s, c);
    } else {
      StepKeepsInv(s, es[0], c);
      OrphansAreAbandoned(s, es[0], c);
      assert NoCancel(es[1..]);
      OrphansBoundChildren(Next(s, es[0], c), es[1..], t, c);
    }
  }

  // ----- the schedule that overruns the limit -----

  lemma TerminalWrite(r: Run) returns (w: Pending)
    requires RowOk(r, true) && r.task.None? && ActiveRun(r) && r.entered
    ensures w in r.pending && Terminal(w.status)
    ensures var x := WriteRow(r, w, 0).(pending := r.pending - {w});
            !ActiveRun(x) && x.task.None? && Orphan(x) == Orphan(r)
  {
    w :| w in r.pending && Terminal(w.status);
    hide RowOk;
  }

  /** A terminal write in flight is all that keeps an entered run without a task active. */
  lemma SettlesBy(s: State, id: RunId, c: Config) returns (e: Step, r: Run)
    requires s.up && id in s.runs && RowOk(s.runs[id], true)
    requires s.runs[id].task.None? && ActiveRun(s.runs[id]) && s.runs[id].entered
    ensures Enabled(s, e) && !Cancels(e) && Next(s, e, c).runs == s.runs[id := r] && Next(s, e, c).up
    ensures !ActiveRun(r) && r.task.None? && Orphan(r) == Orphan(s.runs[id])
  {
    var w := TerminalWrite(s.runs[id]);
    hide RowOk, WriteRow, ActiveRun, Orphan;
    e, r := LateWrite(id, w, 0), WriteRow(s.runs[id], w, 0).(pending := s.runs[id].pending - {w});
  }

  /** Once no task is left, the writes in flight can all be applied: then only stuck rows are active. */
  lemma {:induction false} WritesCanFinish(s: State, c: Config) returns (es: seq<Step>, end: State)
    requires c.Valid() && Inv(s, c) && s.up && forall id :: id in s.runs ==> s.runs[id].task.None?
    ensures Leads(s, es, end, c) && Inv(end, c) && end.up && NoCancel(es)
    ensures forall id :: id in end.runs ==> end.runs[id].task.None?
    ensures Having(end.runs, Orphan) == Having(s.runs, Orphan) && Having(end.runs, Stuck) == Having(s.runs, Stuck)
    ensures Having(end.runs, ActiveRun) == Having(end.runs, Stuck)
    decreases Count(s.runs, ActiveRun)
  {
    hide Inv, RowOk, ChildOk, CountsOk, Enabled, Next, Orphan, ActiveRun;
    RunParts(s, c);
    if id :| id in s.runs && ActiveRun(s.runs[id]) && !Stuck(s.runs[id]) {
      var e, r := SettlesBy(s, id, c);
      StepKeepsInv(s, e, c);
      CountUpdate(s.runs, id, r, ActiveRun);
      SameHaving(s.runs, id, r, Orphan);
      SameHaving(s.runs, id, r, Stuck);
      var rest;
      rest, end := WritesCanFinish(Next(s, e, c), c);
      LeadsFirst(s, e, rest, end, c);
      es := [e] + rest;
    } else {
      es, end := [], s;
    }
  }

  lemma {:induction false} Longest(ids: set<RunId>) returns (n: nat)
    ensures forall x :: x in ids ==> |x| < n
    decreases ids
  {
    if x :| x in ids {
      var m := Longest(ids - {x});
      n := m + |x| + 1;
    } else {
      n := 0;
    }
  }

  /** One more action of a schedule. */
  lemma Acts(s: State, id: RunId, a: Action, c: Config) returns (t: State, r: Run)
    requires c.Valid() && Inv(s, c) && Enabled(s, Act(id, a))
    ensures t == Next(s, Act(id, a), c) && Inv(t, c) && t.up && t.paused == s.paused
    ensures s.runs[id].task.Some? && t.free == s.free + FreeDelta(s.runs[id].task.value, a)
    ensures r == ActedRun(s.runs[id], s.runs[id].task.value, a, false) && t.runs == s.runs[id := r]
  {
    StepKeepsInv(s, Act(id, a), c);
    NextAct(s, id, a, c);
    hide *;
    t := Next(s, Act(id, a), c);
    r := ActedRun(s.runs[id], s.runs[id].task.value, a, false);
  }

  lemma Submits(s: State, id: RunId, c: Config) returns (t: State, r: Run)
    requires c.Valid() && Inv(s, c) && s.up && !s.paused && Count(s.runs, ActiveRun) < c.queueMaxDepth && id !in s.runs
    ensures Enabled(s, Submit(id, "", None, 0, None)) && t == Next(s, Submit(id, "", None, 0, None), c) && Inv(t, c)
    ensures t == s.(runs := s.runs[id := r]) && r.task == Some(Created) && !r.alive
  {
    hide Inv, ActiveRun, Emit;
    StepKeepsInv(s, Submit(id, "", None, 0, None), c);
    t := Next(s, Submit(id, "", None, 0, None), c);
    r := NewRun("", None, 0, None, |s.runs|);
  }

  lemma LeadsFourth(s: State, es: seq<Step>, s1: State, s2: State, s3: State, end: State, c: Config)
    requires |es| == 4 && Enabled(s, es[0]) && s1 == Next(s, es[0], c) && Enabled(s1, es[1])
    requires s2 == Next(s1, es[1], c) && Enabled(s2, es[2])
    requires s3 == Next(s2, es[2], c) && Enabled(s3, es[3]) && end == Next(s3, es[3], c)
    ensures Leads(s, es, end, c)
  {
    hide Enabled, Next;
    assert es[1..][1..] == es[2..] && es[2..][1..] == es[3..] && es[3..][1..] == [];
    assert Leads(s3, es[3..], end, c);
    assert Leads(s2, es[2..], end, c);
    assert Leads(s1, es[1..], end, c);
  }

  /** An accepted submission, driven until its child runs. */
  lemma StartSteps(s: State, id: RunId, c: Config) returns (es: seq<Step>, end: State, r: Run)
    requires c.Valid() && Inv(s, c) && s.up && !s.paused && s.free > 0
    requires Count(s.runs, ActiveRun) < c.queueMaxDepth && id !in s.runs
    ensures Leads(s, es, end, c) && Inv(end, c) && NoCancel(es)
    ensures end.up && !end.paused && end.free == s.free - 1
    ensures end.runs == s.runs[id := r] && r.task == Some(Executing(0)) && r.alive
  {
    hide Inv, Next, Emit, WriteRow, ActiveRun;
    var s1, r1 := Submits(s, id, c);
    var s2, r2 := Acts(s1, id, Begin, c);
    var s3, r3 := Acts(s2, id, MarkRunning(0), c);
    end, r := Acts(s3, id, Acquire, c);
    es := [Submit(id, "", None, 0, None), Act(id, Begin), Act(id, MarkRunning(0)), Act(id, Acquire)];
    LeadsFourth(s, es, s1, s2, s3, end, c);
  }

  lemma TaskIsActive(s: State, id: RunId, c: Config)
    requires Inv(s, c) && id in s.runs && s.runs[id].task.Some?
    ensures ActiveRun(s.runs[id])
  {
    RunParts(s, c);
  }

  lemma StartRun(s: State, c: Config) returns (es: seq<Step>, end: State, id: RunId)
    requires c.Valid() && Inv(s, c) && s.up && !s.paused && s.free > 0 && Count(s.runs, ActiveRun) < c.queueMaxDepth
    ensures Leads(s, es, end, c) && Inv(end, c) && NoCancel(es)
    ensures end.up && !end.paused && end.free == s.free - 1
    ensures id in end.runs && end.runs[id].task == Some(Executing(0)) && end.runs[id].alive
    ensures Count(end.runs, LivingChild) == Count(s.runs, LivingChild) + 1
    ensures Count(end.runs, ActiveRun) == Count(s.runs, ActiveRun) + 1
    ensures Count(end.runs, Orphan) == Count(s.runs, Orphan) && Count(end.runs, Stuck) == Count(s.runs, Stuck)
  {
    var n := Longest(s.runs.Keys);
    id := seq(n, _ => 'x');
    var r;
    es, end, r := StartSteps(s, id, c);
    TaskIsActive(end, id, c);
    hide Inv, Leads, Count, ActiveRun;
    CountUpdate(s.runs, id, r, LivingChild);
    CountUpdate(s.runs, id, r, ActiveRun);
    CountUpdate(s.runs, id, r, Orphan);
    CountUpdate(s.runs, id, r, Stuck);
  }

  /** `n` more runs, each of them with a child. */
  lemma {:induction false} StartRuns(s: State, n: nat, c: Config) returns (es: seq<Step>, end: State)
    requires c.Valid() && Inv(s, c) && s.up && !s.paused
    requires n <= s.free && Count(s.runs, ActiveRun) + n <= c.queueMaxDepth
    ensures Leads(s, es, end, c) && NoCancel(es) && Count(end.runs, LivingChild) == Count(s.runs, LivingChild) + n
    decreases n
  {
    hide Inv, Count;
    if n == 0 {
      return [], s;
    }
    var first, mid, id := StartRun(s, c);
    var rest;
    rest, end := StartRuns(mid, n - 1, c);
    LeadsOn(s, first, mid, rest, end, c);
    es := first + rest;
  }

  /** Whatever the intake switch says, runs can be submitted again. */
  lemma OpensIntake(s: State, c: Config) returns (t: State)
    requires Inv(s, c) && s.up
    ensures t == s.(paused := false) && Inv(t, c) && Leads(s, [SetIntake(false)], t, c)
  {
    t := s.(paused := false);
    assert [SetIntake(false)][1..] == [];
    assert Next(s, SetIntake(false), c) == t;
    SetIntakeKeepsInv(s, false, c);
  }

  /** With no task left, every living child is an orphan and every place is free. */
  lemma OnlyOrphansLive(s: State, c: Config)
    requires Inv(s, c) && forall id :: id in s.runs ==> s.runs[id].task.None?
    ensures Count(s.runs, LivingChild) == Count(s.runs, Orphan) && s.free == c.maxConcurrentRuns
  {
    NoTasksNoCounts(s.runs);
    assert Having(s.runs, LivingChild) == Having(s.runs, Orphan);
  }

  /** End every task, apply every write, and start runs in all the places there are. */
  lemma FillPlaces(s: State, c: Config) returns (es: seq<Step>, t: State)
    requires c.Valid() && Inv(s, c) && s.up
    ensures Leads(s, es, t, c) && NoCancel(es)
    ensures Count(t.runs, LivingChild) == Count(s.runs, Orphan) + Places(s, c)
  {
    hide Inv, Having;
    var ends, ended := EveryTaskCanFinish(s, c);
    var writes, written := WritesCanFinish(ended, c);
    var open := OpensIntake(written, c);
    InvParts(open, c);
    OnlyOrphansLive(open, c);
    var starts;
    starts, t := StartRuns(open, Places(s, c), c);
    LeadsOn(s, ends, ended, writes, written, c);
    LeadsOn(s, ends + writes, written, [SetIntake(false)], open, c);
    LeadsOn(s, ends + writes + [SetIntake(false)], open, starts, t, c);
    es := ends + writes + [SetIntake(false)] + starts;
  }

  /**
   * The exact condition: from a state in which the daemon is up, more children than the
   * limit can run without one further cancellation if and only if the orphans there are
   * and the places left exceed the limit. With no stuck row, one orphan is enough.
   */
  lemma OverrunsExactlyWithOrphans(s: State, c: Config)
    requires c.Valid() && Inv(s, c) && s.up
    ensures CanOverrun(s, c) <==> Count(s.runs, Orphan) + Places(s, c) > c.maxConcurrentRuns
  {
    hide Inv, Leads, Places;
    if Count(s.runs, Orphan) + Places(s, c) > c.maxConcurrentRuns {
      var es, t := FillPlaces(s, c);
    } else if CanOverrun(s, c) {
      var es, t :| Leads(s, es, t, c) && NoCancel(es) && Count(t.runs, LivingChild) > c.maxConcurrentRuns;
      OrphansBoundChildren(s, es, t, c);
    }
  }

  /**
   * Step by step: while no child is left behind and there is room for as many runs as the
   * limit, a step opens the way over the limit if and only if it abandons a child.
   */
  lemma OverrunsExactlyOnceAbandoned(s: State, e: Step, c: Config)
    requires c.Valid() && Inv(s, c) && Enabled(s, e)
    requires Count(s.runs, Orphan) == 0 && Count(s.runs, Stuck) + c.maxConcurrentRuns <= c.queueMaxDepth
    ensures CanOverrun(Next(s, e, c), c) <==> Abandons(s, e)
  {
    hide Inv, Leads, Next, Orphan, Stuck, Enabled;
    var t := Next(s, e, c);
    StepKeepsInv(s, e, c);
    OrphansAreAbandoned(s, e, c);
    if Abandons(s, e) {
      OverrunsExactlyWithOrphans(t, c);
    } else if CanOverrun(t, c) {
      var es, u :| Leads(t, es, u, c) && NoCancel(es) && Count(u.runs, LivingChild) > c.maxConcurrentRuns;
      OrphansBoundChildren(t, es, u, c);
    }
  }

  // ----- over whole runs of the daemon -----

  ghost predicate NeverAbandons(s: State, es: seq<Step>, c: Config)
    decreases |es|
  {
    es == [] || (Enabled(s, es[0]) && !Abandons(s, es[0]) && NeverAbandons(Next(s, es[0], c), es[1..], c))
  }

  lemma {:induction false} NoOrphansArise(s: State, es: seq<Step>, t: State, c: Config)
    requires c.Valid() && Inv(s, c) && Leads(s, es, t, c) && NeverAbandons(s, es, c) && Count(s.runs, Orphan) == 0
    ensures Inv(t, c) && Count(t.runs, Orphan) == 0
    decreases |es|
  {
    hide Inv, Next, Orphan, Count;
    if es != [] {
      StepKeepsInv(s, es[0], c);
      OrphansAreAbandoned(s, es[0], c);
      NoOrphansArise(Next(s, es[0], c), es[1..], t, c);
    }
  }

  /** As long as no cancellation abandons a child, the living children stay within the limit. */
  lemma ChildrenAreBounded(es: seq<Step>, s: State, c: Config)
    requires c.Valid() && Leads(Initial(c), es, s, c) && NeverAbandons(Initial(c), es, c)
    ensures Count(s.runs, LivingChild) <= c.maxConcurrentRuns
  {
    InitialInv(c);
    assert Having(Initial(c).runs, Orphan) == {};
    hide Inv, Leads, NeverAbandons;
    NoOrphansArise(Initial(c), es, s, c);
    ChildrenAndPlaces(s, c);
  }

  lemma FirstBoot(c: Config) returns (s: State)
    requires c.Valid()
    ensures Leads(Initial(c), [Boot(0, false)], s, c) && Inv(s, c) && s.up && !s.paused && s.runs == map[]
    ensures s.free == c.maxConcurrentRuns
  {
    s := Next(Initial(c), Boot(0, false), c);
    assert [Boot(0, false)][1..] == [];
    InitialInv(c);
    BootKeepsInv(Initial(c), 0, false, c);
  }

  lemma NoRunsNoCounts(runs: map<RunId, Run>)
    requires runs == map[]
    ensures Count(runs, Orphan) == 0 && Count(runs, Stuck) == 0 && Count(runs, ActiveRun) == 0
  {
    assert Having(runs, Orphan) == {} && Having(runs, Stuck) == {} && Having(runs, ActiveRun) == {};
  }

  /** One run is cancelled between the end of its child's output and the child's exit. */
  lemma CancelWhileReaping(s: State, id: RunId, c: Config) returns (reaping: State, t: State)
    requires c.Valid() && Inv(s, c) && s.up && id in s.runs
    requires s.runs[id].task == Some(Executing(0)) && s.runs[id].alive
    ensures Leads(s, [Act(id, StopReading)], reaping, c) && Inv(reaping, c)
    ensures Leads(reaping, [Act(id, Cancel)], t, c) && Inv(t, c) && t.up
    ensures Count(t.runs, Orphan) == Count(s.runs, Orphan) + 1 && Count(t.runs, Stuck) == Count(s.runs, Stuck)
  {
    var r1, r2;
    hide Inv, Emit;
    reaping, r1 := Acts(s, id, StopReading, c);
    t, r2 := Acts(reaping, id, Cancel, c);
    assert [Act(id, StopReading)][1..] == [] && [Act(id, Cancel)][1..] == [];
    hide Next, ActiveRun;
    CountUpdate(s.runs, id, r1, Orphan);
    CountUpdate(s.runs, id, r1, Stuck);
    CountUpdate(reaping.runs, id, r2, Orphan);
    CountUpdate(reaping.runs, id, r2, Stuck);
  }

  /** A single cancellation, in a daemon just booted, is enough to run more children than any limit. */
  lemma OneCancellationOverruns(c: Config) returns (before: seq<Step>, cancel: Step, after: seq<Step>, s: State)
    requires c.Valid()
    ensures Leads(Initial(c), before + [cancel] + after, s, c)
    ensures NoCancel(before) && Cancels(cancel) && NoCancel(after)
    ensures Count(s.runs, LivingChild) == c.maxConcurrentRuns + 1
  {
    hide Inv, Next, Leads, Count;
    var up := FirstBoot(c);
    NoRunsNoCounts(up.runs);
    var starts, running, id := StartRun(up, c);
    var reaping, cancelled := CancelWhileReaping(running, id, c);
    LeadsOn(Initial(c), [Boot(0, false)], up, starts, running, c);
    LeadsOn(Initial(c), [Boot(0, false)] + starts, running, [Act(id, StopReading)], reaping, c);
    before, cancel := [Boot(0, false)] + starts + [Act(id, StopReading)], Act(id, Cancel);
    LeadsOn(Initial(c), before, reaping, [cancel], cancelled, c);
    after, s := FillPlaces(cancelled, c);
    LeadsOn(Initial(c), before + [cancel], cancelled, after, s, c);
  }
}
