/**
 * The failure-streak arithmetic that `LoginThrottle._bump` and
 * `SudoService._record_failure` both spell out. Instants are microseconds; the
 * stored columns hold `Trunc`-ated instants.
 */
module Lockout {
  import opened Wrappers
  import opened Clock

  /** One `login_attempts` or `sudo_lockouts` row. */
  datatype Attempt = Attempt(failedCount: nat, firstFailedAt: Option<int>, lockedUntil: Option<int>)

  datatype Policy = Policy(max: nat, window: int, lockout: int) {
    predicate Valid() {
      max >= 1 && window > 0 && lockout > 0
    }
  }

  /** `_active` / `_active_lockout`: a lock that still lies in the future. */
  predicate Active(row: Option<Attempt>, now: int) {
    row.Some? && row.value.lockedUntil.Some? && row.value.lockedUntil.value > now
  }

  /** The row one more failure at `now` writes. */
  function Bump(current: Option<Attempt>, now: int, p: Policy): Attempt {
    var first := if current.Some? && current.value.firstFailedAt.Some? then current.value.firstFailedAt.value else now;
    var stale := now - first > p.window;
    var count := if stale then 1 else (if current.Some? then current.value.failedCount else 0) + 1;
    Attempt(count,
            Some(Trunc(if stale then now else first)),
            if count >= p.max then Some(Trunc(now + p.lockout)) else None)
  }

  /** The two cut-offs of `delete_expired`, both inclusive, on text written by `iso`. */
  predicate Expired(row: Attempt, now: int, window: int) {
    && (row.lockedUntil.None? || row.lockedUntil.value <= Trunc(now))
    && (row.firstFailedAt.None? || row.firstFailedAt.value <= Trunc(now - window))
  }

  predicate LocksAtMax(row: Option<Attempt>, p: Policy) {
    row.Some? ==>
      && row.value.failedCount >= 1
      && row.value.firstFailedAt.Some?
      && (row.value.lockedUntil.Some? <==> row.value.failedCount >= p.max)
  }

  /** What every row written by `Bump` satisfies: locked from `max` on, and only then, with instants as stored. */
  predicate RowOk(row: Option<Attempt>, p: Policy) {
    && LocksAtMax(row, p)
    && (row.Some? ==> row.value.firstFailedAt.value % 1000 == 0)
    && (row.Some? && row.value.lockedUntil.Some? ==> row.value.lockedUntil.value % 1000 == 0)
  }

  lemma BumpOk(current: Option<Attempt>, now: int, p: Policy)
    requires p.Valid() && RowOk(current, p)
    ensures RowOk(Some(Bump(current, now, p)), p)
  {
  }

  /** The bucket's row after one more recorded failure; `sweeps` says whether expired rows go first. */
  function Next(row: Option<Attempt>, now: int, p: Policy, sweeps: bool): Attempt {
    Bump(if row.Some? && sweeps && Expired(row.value, now, p.window) then None else row, now, p)
  }

  /** How long a streak lives, counted from its start as stored: the sweep is inclusive, `_bump` is not. */
  function Life(p: Policy, sweeps: bool): int {
    if sweeps then p.window else p.window + 1
  }

  /** A failure at `now` begins a new streak. */
  predicate Restarts(row: Option<Attempt>, now: int, p: Policy, sweeps: bool)
    requires LocksAtMax(row, p)
  {
    row.None? || row.value.firstFailedAt.value + Life(p, sweeps) <= now
  }

  /** The row of a streak that began at `first` and counts `c`, with the lock it sets if that is enough. */
  function Streak(c: nat, first: int, lock: int, p: Policy): Attempt {
    Attempt(c, Some(first), if c >= p.max then Some(lock) else None)
  }

  /** Likewise when the `c`th failure came at `now`. */
  function Counted(c: nat, first: int, now: int, p: Policy): Attempt {
    Streak(c, first, Trunc(now + p.lockout), p)
  }

  /** With or without the sweep, an unlocked bucket's streak restarts exactly at the end of its life. */
  lemma NextIsCounted(row: Option<Attempt>, now: int, p: Policy, sweeps: bool)
    requires p.Valid() && RowOk(row, p) && !Active(row, now)
    ensures RowOk(Some(Next(row, now, p, sweeps)), p)
    ensures Next(row, now, p, sweeps)
         == if Restarts(row, now, p, sweeps) then Counted(1, Trunc(now), now, p)
            else Counted(row.value.failedCount + 1, row.value.firstFailedAt.value, now, p)
  {
    TruncIsWhole(now);
    TruncIsWhole(now + p.lockout);
    if row.Some? {
      var first := row.value.firstFailedAt.value;
      TruncIsLast(first, first);
      TruncIsLast(first, now - p.window);
      if row.value.lockedUntil.Some? {
        TruncIsLast(row.value.lockedUntil.value, now);
      }
    }
    hide Trunc;
  }

  /** Failures at these times would each find the bucket unlocked. */
  predicate Recordable(row: Option<Attempt>, times: seq<int>, p: Policy, sweeps: bool)
    decreases |times|
  {
    times == [] || (!Active(row, times[0]) && Recordable(Some(Next(row, times[0], p, sweeps)), times[1..], p, sweeps))
  }

  predicate InsideInOrder(times: seq<int>, a: int, b: int) {
    && (forall i :: 0 <= i < |times| ==> a <= times[i] < b)
    && (forall i, j :: 0 <= i < j < |times| ==> times[i] <= times[j])
  }

  /** Whatever row a bucket starts from, `[a, b)` takes at most `n` of its failures. */
  ghost predicate KeepsAtMost(a: int, b: int, p: Policy, sweeps: bool, n: nat) {
    forall row: Option<Attempt>, times: seq<int> ::
      RowOk(row, p) && InsideInOrder(times, a, b) && Recordable(row, times, p, sweeps) ==> |times| <= n
  }

  function Repeat(t: int, n: nat): (s: seq<int>)
    ensures |s| == n && forall i :: 0 <= i < n ==> s[i] == t
  {
    seq(n, _ => t)
  }

  lemma RepeatOnce(row: Option<Attempt>, now: int, n: nat, rest: seq<int>, p: Policy, sweeps: bool)
    requires !Active(row, now) && Recordable(Some(Next(row, now, p, sweeps)), Repeat(now, n) + rest, p, sweeps)
    ensures Recordable(row, Repeat(now, n + 1) + rest, p, sweeps)
  {
    hide Active, Next;
    var times := Repeat(now, n + 1) + rest;
    assert times[0] == now && times[1..] == Repeat(now, n) + rest;
  }

  lemma RepeatNever(now: int, rest: seq<int>)
    ensures Repeat(now, 0) + rest == rest
  {
  }

  lemma StreakStep(c: nat, first: int, now: int, p: Policy, sweeps: bool)
    requires p.Valid() && 1 <= c < p.max && first % 1000 == 0 && first + Life(p, sweeps) > now
    ensures var row := Some(Attempt(c, Some(first), None));
            !Active(row, now) && Next(row, now, p, sweeps) == Counted(c + 1, first, now, p)
  {
    hide Next;
    NextIsCounted(Some(Attempt(c, Some(first), None)), now, p, sweeps);
  }

  /** A live streak of `c` failures takes `n` more at `now`, the last of which may lock the bucket. */
  lemma {:induction false} StreakGrows(c: nat, first: int, now: int, n: nat, rest: seq<int>, p: Policy, sweeps: bool)
    requires p.Valid() && 1 <= c < p.max && c + n <= p.max
    requires first % 1000 == 0 && first + Life(p, sweeps) > now
    requires Recordable(Some(Counted(c + n, first, now, p)), rest, p, sweeps)
    ensures Recordable(Some(Attempt(c, Some(first), None)), Repeat(now, n) + rest, p, sweeps)
    decreases n
  {
    hide Recordable, Next, Life, Trunc, Active;
    RepeatNever(now, rest);
    if n > 0 {
      StreakStep(c, first, now, p, sweeps);
      if n > 1 {
        StreakGrows(c + 1, first, now, n - 1, rest, p, sweeps);
      }
      RepeatOnce(Some(Attempt(c, Some(first), None)), now, n - 1, rest, p, sweeps);
    }
  }

  /** A bucket whose streak is over takes `n` failures at once, up to and including the one that locks it. */
  lemma NewStreak(row: Option<Attempt>, now: int, n: nat, rest: seq<int>, p: Policy, sweeps: bool)
    requires p.Valid() && RowOk(row, p) && !Active(row, now) && Restarts(row, now, p, sweeps)
    requires 1 <= n <= p.max && (n >= 2 ==> Trunc(now) + Life(p, sweeps) > now)
    requires Recordable(Some(Counted(n, Trunc(now), now, p)), rest, p, sweeps)
    ensures Recordable(row, Repeat(now, n) + rest, p, sweeps)
  {
    hide Recordable, Next, Life, Active;
    NextIsCounted(row, now, p, sweeps);
    RepeatNever(now, rest);
    if n > 1 {
      StreakGrows(1, Trunc(now), now, n - 1, rest, p, sweeps);
    }
    RepeatOnce(row, now, n - 1, rest, p, sweeps);
  }

  /** A streak that is over as soon as it is stored never gets past one failure. */
  lemma {:induction false} NeverCounts(row: Option<Attempt>, now: int, n: nat, p: Policy, sweeps: bool)
    requires p.Valid() && p.max >= 2 && RowOk(row, p) && !Active(row, now) && Restarts(row, now, p, sweeps)
    requires Trunc(now) + Life(p, sweeps) <= now
    ensures Recordable(row, Repeat(now, n), p, sweeps)
    decreases n
  {
    hide Next;
    assert forall k: nat :: Repeat(now, k) + [] == Repeat(now, k);
    if n > 0 {
      NextIsCounted(row, now, p, sweeps);
      NeverCounts(Some(Counted(1, Trunc(now), now, p)), now, n - 1, p, sweeps);
      RepeatOnce(row, now, n - 1, [], p, sweeps);
    }
  }

  /** A lock that is over as soon as it is stored stops nothing. */
  lemma {:induction false} NeverLocks(c: nat, first: int, lock: int, now: int, n: nat, p: Policy, sweeps: bool)
    requires p.Valid() && c >= p.max && first % 1000 == 0 && first + Life(p, sweeps) > now
    requires lock % 1000 == 0 && lock <= now && Trunc(now + p.lockout) <= now
    ensures Recordable(Some(Attempt(c, Some(first), Some(lock))), Repeat(now, n), p, sweeps)
    decreases n
  {
    hide Next;
    assert forall k: nat :: Repeat(now, k) + [] == Repeat(now, k);
    if n > 0 {
      var row := Some(Attempt(c, Some(first), Some(lock)));
      NextIsCounted(row, now, p, sweeps);
      NeverLocks(c + 1, first, Trunc(now + p.lockout), now, n - 1, p, sweeps);
      RepeatOnce(row, now, n - 1, [], p, sweeps);
    }
  }

  /** Once the sweep has run, an unlocked surviving row is still inside its streak window. */
  lemma SurvivorIsInsideItsWindow(row: Attempt, now: int, p: Policy)
    requires p.Valid() && RowOk(Some(row), p)
    requires !Active(Some(row), now) && !Expired(row, now, p.window)
    ensures now - row.firstFailedAt.value < p.window
    ensures Bump(Some(row), now, p).failedCount == row.failedCount + 1
  {
    TruncIsLast(row.firstFailedAt.value, now - p.window);
    if row.lockedUntil.Some? {
      TruncIsLast(row.lockedUntil.value, now);
    }
    hide Trunc;
  }

  /** The bucket's row once failures at these times are recorded. */
  function After(row: Option<Attempt>, times: seq<int>, p: Policy, sweeps: bool): Option<Attempt>
    decreases |times|
  {
    if times == [] then row else After(Some(Next(row, times[0], p, sweeps)), times[1..], p, sweeps)
  }

  /** A live streak takes failures inside its life until `max` of them are counted; the last one sets the row. */
  lemma {:induction false} StreakFills(c: nat, first: int, last: int, times: seq<int>, p: Policy, sweeps: bool)
    requires p.Valid() && 1 <= c && c + |times| <= p.max && first % 1000 == 0
    requires InsideInOrder(times, first, first + Life(p, sweeps))
    ensures var row := Some(Counted(c, first, last, p));
            && Recordable(row, times, p, sweeps)
            && After(row, times, p, sweeps)
               == if times == [] then row else Some(Counted(c + |times|, first, times[|times| - 1], p))
    decreases |times|
  {
    hide Next, Trunc, Life, Active;
    if times != [] {
      StreakStep(c, first, times[0], p, sweeps);
      StreakFills(c + 1, first, times[0], times[1..], p, sweeps);
    }
  }

  /** The row counts just these failures, and is locked, from the last of them on, exactly if they are `max`. */
  predicate CountsJust(row: Option<Attempt>, times: seq<int>, p: Policy) {
    && times != [] && row.Some? && row.value.failedCount == |times|
    && row.value.lockedUntil == if |times| >= p.max then Some(Trunc(times[|times| - 1] + p.lockout)) else None
  }

  /** A clean bucket takes `max` failures inside one streak's life, and exactly the last of them locks it. */
  lemma CleanBucketTakesMax(times: seq<int>, p: Policy, sweeps: bool)
    requires p.Valid() && 1 <= |times| <= p.max
    requires InsideInOrder(times, times[0], Trunc(times[0]) + Life(p, sweeps))
    ensures Recordable(None, times, p, sweeps) && CountsJust(After(None, times, p, sweeps), times, p)
  {
    var now, rest := times[0], times[1..];
    TruncIsWhole(now);
    hide Next, Trunc, Life;
    NextIsCounted(None, now, p, sweeps);
    assert InsideInOrder(rest, Trunc(now), Trunc(now) + Life(p, sweeps));
    StreakFills(1, Trunc(now), now, rest, p, sweeps);
  }
}
