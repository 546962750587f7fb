/** `OpencodeCliRunner._run_one`: the timed, size-capped loop over one child's output. */
module OpencodeRunner {
  import opened Wrappers

  /** What one bounded `queue.get()` brings: a line, the end of the pipe, or a timeout. */
  datatype Arrival = Line(bytes: nat, isEvent: bool) | Eof | Silence

  /** One turn of the loop: the clock's reading at its head, then what arrived. */
  datatype Tick = Tick(elapsed: int, arrival: Arrival)

  datatype Limits = Limits(timeout: int, maxOutputBytes: nat)

  datatype RunStatus = Completed | Failed | TimedOut

  datatype Cause = SpawnFailed | RunTimeout | OutputCap | ExitCode(code: Option<int>)

  datatype RunOutcome = RunOutcome(status: RunStatus, exitCode: Option<int>, emitted: nat, skipped: nat,
                                   truncated: bool, error: Option<Cause>)

  /** Bytes of the first `n` ticks' lines. */
  function Bytes(ticks: seq<Tick>, n: nat): nat
    requires n <= |ticks|
  {
    if n == 0 then 0
    else Bytes(ticks, n - 1) + if ticks[n - 1].arrival.Line? then ticks[n - 1].arrival.bytes else 0
  }

  predicate Late(tick: Tick, limits: Limits) {
    tick.elapsed >= limits.timeout || tick.arrival.Silence?
  }

  /** The loop does not get past tick `i`. */
  predicate Stops(ticks: seq<Tick>, i: nat, limits: Limits)
    requires i < |ticks|
  {
    Late(ticks[i], limits) || ticks[i].arrival.Eof? || Bytes(ticks, i + 1) > limits.maxOutputBytes
  }

  /** Tick `k` is the one the loop ends at. */
  predicate EndsAt(ticks: seq<Tick>, k: nat, limits: Limits) {
    k < |ticks| && Stops(ticks, k, limits) && forall i :: 0 <= i < k ==> !Stops(ticks, i, limits)
  }

  predicate IsEvent(tick: Tick) {
    tick.arrival.Line? && tick.arrival.isEvent
  }

  /** The positions of the event lines among the first `n` ticks, in order. */
  function EventPositions(ticks: seq<Tick>, n: nat): (s: seq<nat>)
    requires n <= |ticks|
    ensures forall j :: 0 <= j < |s| ==> s[j] < n && IsEvent(ticks[s[j]])
    ensures forall i, j :: 0 <= i < j < |s| ==> s[i] < s[j]
    ensures forall p :: 0 <= p < n && IsEvent(ticks[p]) ==> p in s
  {
    if n == 0 then [] else EventPositions(ticks, n - 1) + if IsEvent(ticks[n - 1]) then [n - 1] else []
  }

  /**
   * Every line within the cap is either handed on, numbered from 0 in arrival order, or
   * counted as skipped; the tick that ends the loop decides the status, a timeout before
   * the output cap before the exit code.
   */
  method RunOne(spawned: bool, ticks: seq<Tick>, limits: Limits, exitCode: Option<int>)
    returns (o: RunOutcome, delivered: seq<(nat, nat)>)
    requires exists k: nat :: EndsAt(ticks, k, limits)
    ensures forall k: nat :: EndsAt(ticks, k, limits) && spawned ==>
              && o.emitted + o.skipped == k
              && o.emitted == |delivered| == |EventPositions(ticks, k)|
              && (forall j :: 0 <= j < |delivered| ==> delivered[j] == (j, EventPositions(ticks, k)[j]))
              && Bytes(ticks, k) <= limits.maxOutputBytes
              && (o.status == TimedOut <==> Late(ticks[k], limits))
              && (o.truncated <==> !Late(ticks[k], limits) && !ticks[k].arrival.Eof?)
              && o.exitCode == exitCode
              && o.error == (if Late(ticks[k], limits) then Some(RunTimeout)
                             else if !ticks[k].arrival.Eof? then Some(OutputCap)
                             else if exitCode != Some(0) then Some(ExitCode(exitCode))
                             else None)
              && (o.status == Completed <==> !Late(ticks[k], limits) && ticks[k].arrival.Eof? && exitCode == Some(0))
    ensures o.error.None? <==> o.status == Completed
    ensures !spawned ==> o == RunOutcome(Failed, None, 0, 0, false, Some(SpawnFailed)) && delivered == []
  {
    delivered := [];
    if !spawned {
      return RunOutcome(Failed, None, 0, 0, false, Some(SpawnFailed)), delivered;
    }
    var emitted, skipped, outputBytes, sequence := 0, 0, 0, 0;
    var truncated, timedOut := false, false;
    var turn := 0;
    ghost var last: nat :| EndsAt(ticks, last, limits);
    while true
      invariant 0 <= turn <= last
      invariant emitted + skipped == turn && emitted == sequence == |delivered|
      invariant outputBytes == Bytes(ticks, turn) <= limits.maxOutputBytes
      invariant !truncated && !timedOut
      invariant |EventPositions(ticks, turn)| == |delivered|
      invariant forall j :: 0 <= j < |delivered| ==> delivered[j] == (j, EventPositions(ticks, turn)[j])
      decreases last - turn
    {
      var remaining := limits.timeout - ticks[turn].elapsed;
      if remaining <= 0 {
        timedOut := true;
        break;
      }
      var arrival := ticks[turn].arrival;
      if arrival.Silence? {
        timedOut := true;
        break;
      }
      if arrival.Eof? {
        break;
      }
      outputBytes := outputBytes + arrival.bytes;
      assert outputBytes == Bytes(ticks, turn + 1);
      if outputBytes > limits.maxOutputBytes {
        truncated := true;
        break;
      }
      assert !Stops(ticks, turn, limits);
      if !arrival.isEvent {
        skipped := skipped + 1;
      } else {
        delivered := delivered + [(sequence, turn)];
        sequence := sequence + 1;
        emitted := emitted + 1;
      }
      turn := turn + 1;
    }
    assert Stops(ticks, turn, limits);
    assert turn == last;
    if timedOut {
      o := RunOutcome(TimedOut, exitCode, emitted, skipped, truncated, Some(RunTimeout));
    } else if truncated {
      o := RunOutcome(Failed, exitCode, emitted, skipped, truncated, Some(OutputCap));
    } else if exitCode != Some(0) {
      o := RunOutcome(Failed, exitCode, emitted, skipped, truncated, Some(ExitCode(exitCode)));
    } else {
      o := RunOutcome(Completed, exitCode, emitted, skipped, truncated, None);
    }
  }

  function Sum(sizes: seq<nat>): nat {
    if sizes == [] then 0 else sizes[0] + Sum(sizes[1..])
  }

  lemma {:induction false} SumSnoc(sizes: seq<nat>, n: nat)
    ensures Sum(sizes + [n]) == Sum(sizes) + n
  {
    if sizes == [] {
      assert [n][1..] == [];
    } else {
      SumSnoc(sizes[1..], n);
      assert (sizes + [n])[1..] == sizes[1..] + [n];
    }
  }

  /** The ticks are lines of these sizes, each read in time. */
  predicate Reads(ticks: seq<Tick>, sizes: seq<nat>, limits: Limits) {
    && |ticks| == |sizes|
    && forall i :: 0 <= i < |ticks| ==>
         ticks[i].elapsed < limits.timeout && ticks[i].arrival.Line? && ticks[i].arrival.bytes == sizes[i]
  }

  lemma {:induction false} BytesOfLines(ticks: seq<Tick>, sizes: seq<nat>, n: nat, limits: Limits)
    requires n <= |sizes| <= |ticks| && Reads(ticks[..|sizes|], sizes, limits)
    ensures Bytes(ticks, n) == Sum(sizes[..n])
  {
    if n > 0 {
      BytesOfLines(ticks, sizes, n - 1, limits);
      assert ticks[..|sizes|][n - 1] == ticks[n - 1];
      SumSnoc(sizes[..n - 1], sizes[n - 1]);
      assert sizes[..n] == sizes[..n - 1] + [sizes[n - 1]];
    }
  }

  lemma {:induction false} SumGrows(sizes: seq<nat>, n: nat)
    requires n <= |sizes|
    ensures Sum(sizes[..n]) <= Sum(sizes)
  {
    if n > 0 {
      SumGrows(sizes[1..], n - 1);
      assert sizes[..n][1..] == sizes[1..][..n - 1];
    }
  }

  /**
   * Where the loop ends: at the first tick after lines that all came in time and fit the cap together,
   * if that tick comes too late, brings nothing, closes the pipe, or brings a line that breaks the cap.
   */
  lemma EndsAfterLines(ticks: seq<Tick>, sizes: seq<nat>, limits: Limits)
    requires |sizes| < |ticks| && Reads(ticks[..|sizes|], sizes, limits) && Sum(sizes) <= limits.maxOutputBytes
    ensures var tick := ticks[|sizes|];
            EndsAt(ticks, |sizes|, limits) <==>
              || tick.elapsed >= limits.timeout || !tick.arrival.Line?
              || Sum(sizes) + tick.arrival.bytes > limits.maxOutputBytes
  {
    var k := |sizes|;
    BytesOfLines(ticks, sizes, k, limits);
    assert sizes[..k] == sizes;
    forall i | 0 <= i < k ensures !Stops(ticks, i, limits) {
      BytesOfLines(ticks, sizes, i + 1, limits);
      SumGrows(sizes, i + 1);
      assert ticks[..k][i] == ticks[i];
    }
  }
}
