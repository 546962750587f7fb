/** `ansina.opencode.telemetry`: numbering the lines of a run's trace. */
module OpencodeTelemetry {
  import opened Wrappers
  import opened OpencodeRuns

  /** The `event` of a line; `Ended` stands for completed, failed, timeout and cancelled. */
  datatype Kind = Submitted | Started | Event | Ended(status: Status) | Intervention

  /** A line as written: its run, its number, what happened. */
  datatype Line = Line(run: Option<RunId>, number: nat, kind: Kind)

  function Number(entry: Option<nat>): nat {
    Or(entry, 0)
  }

  /** A run's counter after one more line: popped by a terminal line, else moved on. */
  function Advanced(entry: Option<nat>, kind: Kind): Option<nat> {
    if kind.Ended? then None else Some(Number(entry) + 1)
  }

  class OpencodeTelemetryWriter {
    var seqByRun: map<RunId, nat>
    /** What reached the spool. */
    var spooled: seq<Line>
    /** Every line a caller asked for, lost or not. */
    ghost var attempted: seq<Line>

    constructor ()
      ensures seqByRun == map[] && spooled == [] && attempted == []
    {
      seqByRun, spooled, attempted := map[], [], [];
    }

    method NextSeq(run: Option<RunId>, terminal: bool) returns (number: nat)
      modifies this`seqByRun
      ensures run.None? ==> number == 0 && seqByRun == old(seqByRun)
      ensures run.Some? ==> number == Number(Get(old(seqByRun), run.value))
      ensures run.Some? ==> seqByRun == if terminal then old(seqByRun) - {run.value}
          else old(seqByRun)[run.value := number + 1]
    {
      if run.None? {
        return 0;
      }
      number := if run.value in seqByRun then seqByRun[run.value] else 0;
      if terminal {
        seqByRun := seqByRun - {run.value};
      } else {
        seqByRun := seqByRun[run.value := number + 1];
      }
    }

    /** A line the spool refuses (`reaches` false) is swallowed, but its number is spent. */
    method Write(run: Option<RunId>, kind: Kind, reaches: bool)
      modifies this
      ensures var line := Line(run, if run.Some? then Number(Get(old(seqByRun), run.value)) else 0, kind);
              && attempted == old(attempted) + [line]
              && spooled == old(spooled) + if reaches then [line] else []
      ensures seqByRun == Counters(old(seqByRun), run, kind)
    {
      var number := NextSeq(run, kind.Ended?);
      if reaches {
        spooled := spooled + [Line(run, number, kind)];
      }
      attempted := attempted + [Line(run, number, kind)];
    }
  }

  function Counters(t: map<RunId, nat>, run: Option<RunId>, kind: Kind): map<RunId, nat> {
    if run.None? then t
    else if kind.Ended? then t - {run.value}
    else t[run.value := Number(Get(t, run.value)) + 1]
  }

  /** The counters after a whole sequence of attempted writes. */
  function Replay(writes: seq<(Option<RunId>, Kind)>): map<RunId, nat> {
    if writes == [] then map[]
    else
      var last := writes[|writes| - 1];
      Counters(Replay(writes[..|writes| - 1]), last.0, last.1)
  }

  /** How many lines `run` got since its latest terminal line. */
  function SinceEnded(writes: seq<(Option<RunId>, Kind)>, run: RunId): nat {
    if writes == [] then 0
    else
      var last := writes[|writes| - 1];
      var before := SinceEnded(writes[..|writes| - 1], run);
      if last.0 != Some(run) then before
      else if last.1.Ended? then 0
      else before + 1
  }

  /**
   * A run's next number is how many lines it got since its latest terminal line, lost
   * lines included; and the map holds exactly the runs with such a line. So a terminal
   * line frees its run's entry, and an intervention written later brings one back that
   * nothing will ever free.
   */
  lemma {:induction false} NumberCountsLinesSinceEnded(writes: seq<(Option<RunId>, Kind)>, run: RunId)
    ensures Number(Get(Replay(writes), run)) == SinceEnded(writes, run)
    ensures run in Replay(writes) <==> SinceEnded(writes, run) > 0
  {
    if writes != [] {
      NumberCountsLinesSinceEnded(writes[..|writes| - 1], run);
    }
  }

  /** The counter map keeps growing: one entry for each ended run that is intervened on. */
  lemma {:induction false} EndedRunsLeakEntries(runs: seq<RunId>) returns (writes: seq<(Option<RunId>, Kind)>)
    ensures Replay(writes).Keys == set r | r in runs
    ensures forall r :: r in runs ==> (Some(r), Ended(Failed)) in writes
  {
    if runs == [] {
      writes := [];
    } else {
      var r := runs[|runs| - 1];
      var before := EndedRunsLeakEntries(runs[..|runs| - 1]);
      var ended := before + [(Some(r), Ended(Failed))];
      writes := ended + [(Some(r), Intervention)];
      assert writes[..|writes| - 1] == ended && ended[..|ended| - 1] == before;
      assert forall x :: x in runs <==> x in runs[..|runs| - 1] || x == r;
    }
  }
}
