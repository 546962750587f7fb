/**
 * How many failures one bucket records inside a half-open interval `[a, b)`: the
 * exact intervals for the tight bound, and the exact settings for which
 * `2 * max - 1` holds of every interval no longer than the window and the lock.
 */
module LockoutBounds {
  import opened Wrappers
  import opened Clock
  import opened Lockout

  /** Why an interval takes few failures; `Room` measures how many are left in each case. */
  datatype Reason =
    | Covered      // no lock set inside ends inside, and no streak begun inside is over inside
    | NoNewStreak  // likewise, but only streaks over at the start restart, and a first lock may end inside
    | EarlyLock    // no streak begun inside is over inside, but a lock of the first millisecond may end inside
    | LateWindow   // no lock set inside ends inside, but a streak of the first millisecond may be over inside

  predicate Applies(k: Reason, a: int, b: int, p: Policy, sweeps: bool) {
    var life := Life(p, sweeps);
    match k
    case Covered => (p.max == 1 || b <= Trunc(a) + life) && b <= Trunc(a + p.lockout)
    case NoNewStreak =>
      p.max >= 3 && p.lockout >= 1000 && b <= Trunc(a) + life && b <= Trunc(a - life) + 1000 + life
    case EarlyLock => p.max >= 2 && p.lockout >= 1000 && b <= Trunc(a) + life && b <= a + p.lockout
    case LateWindow =>
      && p.max >= 2 && life >= 1000 && b <= Trunc(a + p.lockout) && Trunc(a) + life < b <= a + p.window
      && (p.max >= 3 ==> a - Trunc(a) >= life % 1000)
  }

  /** One more failure fits behind a lock set at `t`, because that lock is over before `b`. */
  function Extra(t: int, b: int, p: Policy): nat {
    if Trunc(t + p.lockout) < b then 1 else 0
  }

  function Latest(s: int, t: int): int {
    if s < t then t else s
  }

  // The four measures, for an interval that ends at `b` and whose first millisecond is `start`.

  function CoveredRoom(row: Option<Attempt>, start: int, b: int, p: Policy): nat
    requires p.Valid() && LocksAtMax(row, p)
  {
    if row.None? then p.max
    else
      var started := row.value.firstFailedAt.value >= start;
      if row.value.lockedUntil.None? then p.max - row.value.failedCount + (if started then 0 else p.max - 1)
      else if row.value.lockedUntil.value >= b then 0
      else if started then 1 else p.max
  }

  function NoNewStreakRoom(row: Option<Attempt>, now: int, a: int, b: int, p: Policy, life: int): nat
    requires p.Valid() && LocksAtMax(row, p)
  {
    if row.None? then p.max + Extra(now, b, p)
    else
      var live := row.value.firstFailedAt.value + life > a;
      if row.value.lockedUntil.None? then (if live then p.max - row.value.failedCount else p.max) + Extra(now, b, p)
      else if row.value.lockedUntil.value >= b then 0
      else (if live then 1 else p.max) + Extra(Latest(now, row.value.lockedUntil.value), b, p)
  }

  function EarlyLockRoom(row: Option<Attempt>, now: int, start: int, b: int, p: Policy): nat
    requires p.Valid() && LocksAtMax(row, p)
  {
    if row.None? || row.value.lockedUntil.None? then CoveredRoom(row, start, b, p) + Extra(now, b, p)
    else if row.value.lockedUntil.value >= b then 0
    else CoveredRoom(row, start, b, p) + Extra(Latest(now, row.value.lockedUntil.value), b, p)
  }

  function LateWindowRoom(row: Option<Attempt>, start: int, b: int, p: Policy, life: int): nat
    requires p.Valid() && LocksAtMax(row, p)
  {
    if row.None? then 2 * p.max - 1
    else
      var first := row.value.firstFailedAt.value;
      if row.value.lockedUntil.None? then
        if first >= start + 1000 then p.max - row.value.failedCount
        else if first < start && first + life < start + 1000 then 2 * p.max - 1
        else 2 * p.max - 1 - row.value.failedCount
      else if row.value.lockedUntil.value >= b then 0
      else if first >= start + 1000 then 1
      else if first >= start then p.max
      else 2 * p.max - 1
  }

  /** How many more failures `[a, b)` can take from `now` on when the bucket holds `row`. */
  function Room(k: Reason, row: Option<Attempt>, now: int, a: int, b: int, p: Policy, sweeps: bool): nat
    requires p.Valid() && LocksAtMax(row, p)
  {
    match k
    case Covered => CoveredRoom(row, Trunc(a), b, p)
    case NoNewStreak => NoNewStreakRoom(row, now, a, b, p, Life(p, sweeps))
    case EarlyLock => EarlyLockRoom(row, now, Trunc(a), b, p)
    case LateWindow => LateWindowRoom(row, Trunc(a), b, p, Life(p, sweeps))
  }

  /** At most this many failures of one bucket fit into a `Short` interval. */
  function Bound(p: Policy): nat {
    if p.max <= 1 then p.max else 2 * p.max - 2
  }

  lemma RoomBound(k: Reason, row: Option<Attempt>, now: int, a: int, b: int, p: Policy, sweeps: bool)
    requires p.Valid() && RowOk(row, p) && Applies(k, a, b, p, sweeps)
    ensures Room(k, row, now, a, b, p, sweeps) <= 2 * p.max - 1
    ensures k.Covered? || k.NoNewStreak? ==> Room(k, row, now, a, b, p, sweeps) <= Bound(p)
  {
  }

  /** Waiting makes no room. */
  lemma RoomShrinks(k: Reason, row: Option<Attempt>, now: int, later: int, a: int, b: int, p: Policy, sweeps: bool)
    requires p.Valid() && RowOk(row, p) && now <= later
    ensures Room(k, row, later, a, b, p, sweeps) <= Room(k, row, now, a, b, p, sweeps)
  {
  }

  /** `next` is `row` after a failure at `now`, which is `stored` as the start of a streak. */
  predicate Follows(row: Option<Attempt>, next: Attempt, now: int, stored: int, lock: int, p: Policy, life: int)
    requires LocksAtMax(row, p)
  {
    && (row.Some? && row.value.lockedUntil.Some? ==> row.value.lockedUntil.value <= now)
    && next == if row.None? || row.value.firstFailedAt.value + life <= now then Streak(1, stored, lock, p)
               else Streak(row.value.failedCount + 1, row.value.firstFailedAt.value, lock, p)
  }

  lemma NextFollows(row: Option<Attempt>, now: int, p: Policy, sweeps: bool)
    requires p.Valid() && RowOk(row, p) && !Active(row, now)
    ensures RowOk(Some(Next(row, now, p, sweeps)), p)
    ensures LocksAtMax(row, p) && LocksAtMax(Some(Next(row, now, p, sweeps)), p)
    ensures Follows(row, Next(row, now, p, sweeps), now, Trunc(now), Trunc(now + p.lockout), p, Life(p, sweeps))
  {
    hide Next;
    NextIsCounted(row, now, p, sweeps);
  }

  lemma CoveredStep(row: Option<Attempt>, next: Attempt, now: int, stored: int, lock: int, start: int, b: int,
      p: Policy, life: int)
    requires p.Valid() && LocksAtMax(row, p) && Follows(row, next, now, stored, lock, p, life)
    requires start <= stored && now < b <= lock && (p.max == 1 || b <= start + life)
    ensures CoveredRoom(Some(next), start, b, p) < CoveredRoom(row, start, b, p)
  {
  }

  /** Two locks in a row outlast the interval. */
  lemma SecondLockLasts(now: int, a: int, b: int, p: Policy)
    requires p.lockout >= 1000 && a <= now && (b <= a + p.lockout || b <= a + 1000)
    ensures Extra(Latest(now, Trunc(now + p.lockout)), b, p) == 0
  {
  }

  lemma NoNewStreakStep(row: Option<Attempt>, next: Attempt, now: int, stored: int, lock: int, a: int, b: int,
      p: Policy, life: int)
    requires p.Valid() && LocksAtMax(row, p) && Follows(row, next, now, stored, lock, p, life)
    requires p.max >= 3 && a <= now < b && stored + life > a
    requires Extra(now, b, p) == (if lock < b then 1 else 0) && Extra(Latest(now, lock), b, p) == 0
    requires row.Some? ==> row.value.firstFailedAt.value + life <= a || row.value.firstFailedAt.value + life >= b
    ensures NoNewStreakRoom(Some(next), now, a, b, p, life) < NoNewStreakRoom(row, now, a, b, p, life)
  {
    hide Extra;
  }

  /** A streak that is not over at the start is not over inside. */
  lemma LiveIsCovered(first: int, a: int, b: int, life: int)
    requires first % 1000 == 0 && b <= Trunc(a - life) + 1000 + life
    ensures first + life <= a || first + life >= b
  {
    if first > a - life {
      assert first >= Trunc(a - life) + 1000;
    }
  }

  lemma EarlyLockStep(row: Option<Attempt>, next: Attempt, now: int, stored: int, lock: int, start: int, b: int,
      p: Policy, life: int)
    requires p.Valid() && LocksAtMax(row, p) && Follows(row, next, now, stored, lock, p, life)
    requires p.max >= 2 && start <= stored && now < b <= start + life
    requires Extra(now, b, p) == (if lock < b then 1 else 0) && Extra(Latest(now, lock), b, p) == 0
    ensures EarlyLockRoom(Some(next), now, start, b, p) < EarlyLockRoom(row, now, start, b, p)
  {
    hide Extra;
  }

  lemma LateWindowStep(row: Option<Attempt>, next: Attempt, now: int, stored: int, lock: int, start: int, b: int,
      p: Policy, life: int)
    requires p.Valid() && LocksAtMax(row, p) && Follows(row, next, now, stored, lock, p, life)
    requires p.max >= 2 && life >= 1000 && now < b <= lock && b <= start + 1000 + life
    requires if now < start + 1000 then stored == start else stored >= start + 1000
    requires row.Some? && start <= row.value.firstFailedAt.value < start + 1000 ==>
               row.value.firstFailedAt.value == start
    requires p.max >= 3 && row.Some? && row.value.firstFailedAt.value < start ==>
               row.value.firstFailedAt.value + life <= now || row.value.firstFailedAt.value + life >= start + 1000
    ensures LateWindowRoom(Some(next), start, b, p, life) < LateWindowRoom(row, start, b, p, life)
  {
  }

  /** With a `max` of three or more, no streak older than the interval is over inside its first millisecond. */
  lemma OldStreakIsOver(first: int, a: int, life: int)
    requires first % 1000 == 0 && first < Trunc(a) && a - Trunc(a) >= life % 1000
    ensures first + life <= a || first + life >= Trunc(a) + 1000
  {
    var d := first + life - Trunc(a);
    if 0 <= d < 1000 {
      assert life % 1000 == d;
    }
  }

  lemma FirstLock(now: int, b: int, p: Policy)
    ensures Extra(now, b, p) == if Trunc(now + p.lockout) < b then 1 else 0
  {
  }

  lemma FirstMillisecond(s: int, a: int)
    requires s % 1000 == 0 && Trunc(a) <= s
    ensures s == Trunc(a) || s >= Trunc(a) + 1000
  {
    TruncIsWhole(a);
    var q := s / 1000;
    assert s == 1000 * q;
    hide Trunc;
  }

  lemma CoveredPays(row: Option<Attempt>, now: int, a: int, b: int, p: Policy, sweeps: bool)
    requires p.Valid() && RowOk(row, p) && !Active(row, now) && a <= now < b && Applies(Covered, a, b, p, sweeps)
    ensures RowOk(Some(Next(row, now, p, sweeps)), p) && LocksAtMax(Some(Next(row, now, p, sweeps)), p)
    ensures Room(Covered, Some(Next(row, now, p, sweeps)), now, a, b, p, sweeps)
          < Room(Covered, row, now, a, b, p, sweeps)
  {
    hide Next, CoveredRoom, Extra, Follows, Trunc, RowOk;
    NextFollows(row, now, p, sweeps);
    TruncGrows(a, now);
    TruncGrows(a + p.lockout, now + p.lockout);
    CoveredStep(row, Next(row, now, p, sweeps), now, Trunc(now), Trunc(now + p.lockout), Trunc(a), b, p,
      Life(p, sweeps));
  }

  lemma NoNewStreakPays(row: Option<Attempt>, now: int, a: int, b: int, p: Policy, sweeps: bool)
    requires p.Valid() && RowOk(row, p) && !Active(row, now) && a <= now < b && Applies(NoNewStreak, a, b, p, sweeps)
    ensures RowOk(Some(Next(row, now, p, sweeps)), p) && LocksAtMax(Some(Next(row, now, p, sweeps)), p)
    ensures Room(NoNewStreak, Some(Next(row, now, p, sweeps)), now, a, b, p, sweeps)
          < Room(NoNewStreak, row, now, a, b, p, sweeps)
  {
    hide Next, NoNewStreakRoom, Extra, Follows;
    if row.Some? {
      LiveIsCovered(row.value.firstFailedAt.value, a, b, Life(p, sweeps));
    }
    hide Trunc, RowOk;
    NextFollows(row, now, p, sweeps);
    SecondLockLasts(now, a, b, p);
    FirstLock(now, b, p);
    TruncGrows(a, now);
    NoNewStreakStep(row, Next(row, now, p, sweeps), now, Trunc(now), Trunc(now + p.lockout), a, b, p,
      Life(p, sweeps));
  }

  lemma EarlyLockPays(row: Option<Attempt>, now: int, a: int, b: int, p: Policy, sweeps: bool)
    requires p.Valid() && RowOk(row, p) && !Active(row, now) && a <= now < b && Applies(EarlyLock, a, b, p, sweeps)
    ensures RowOk(Some(Next(row, now, p, sweeps)), p) && LocksAtMax(Some(Next(row, now, p, sweeps)), p)
    ensures Room(EarlyLock, Some(Next(row, now, p, sweeps)), now, a, b, p, sweeps)
          < Room(EarlyLock, row, now, a, b, p, sweeps)
  {
    hide Next, EarlyLockRoom, Extra, Follows, Trunc, RowOk;
    NextFollows(row, now, p, sweeps);
    TruncGrows(a, now);
    SecondLockLasts(now, a, b, p);
    FirstLock(now, b, p);
    EarlyLockStep(row, Next(row, now, p, sweeps), now, Trunc(now), Trunc(now + p.lockout), Trunc(a), b, p,
      Life(p, sweeps));
  }

  lemma LateWindowPays(row: Option<Attempt>, now: int, a: int, b: int, p: Policy, sweeps: bool)
    requires p.Valid() && RowOk(row, p) && !Active(row, now) && a <= now < b && Applies(LateWindow, a, b, p, sweeps)
    ensures RowOk(Some(Next(row, now, p, sweeps)), p) && LocksAtMax(Some(Next(row, now, p, sweeps)), p)
    ensures Room(LateWindow, Some(Next(row, now, p, sweeps)), now, a, b, p, sweeps)
          < Room(LateWindow, row, now, a, b, p, sweeps)
  {
    hide Next, LateWindowRoom, Extra, Follows, Trunc;
    NextFollows(row, now, p, sweeps);
    TruncIsWhole(now);
    TruncGrows(a, now);
    TruncGrows(a + p.lockout, now + p.lockout);
    FirstMillisecond(Trunc(now), a);
    if row.Some? && row.value.firstFailedAt.value >= Trunc(a) {
      FirstMillisecond(row.value.firstFailedAt.value, a);
    }
    if p.max >= 3 && row.Some? && row.value.firstFailedAt.value < Trunc(a) {
      OldStreakIsOver(row.value.firstFailedAt.value, a, Life(p, sweeps));
    }
    hide RowOk;
    LateWindowStep(row, Next(row, now, p, sweeps), now, Trunc(now), Trunc(now + p.lockout), Trunc(a), b, p,
      Life(p, sweeps));
  }

  /** A failure inside the interval uses up room, whatever the reason it is scarce. */
  lemma FailureUsesRoom(k: Reason, row: Option<Attempt>, now: int, a: int, b: int, p: Policy, sweeps: bool)
    requires p.Valid() && RowOk(row, p) && !Active(row, now) && a <= now < b && Applies(k, a, b, p, sweeps)
    ensures RowOk(Some(Next(row, now, p, sweeps)), p) && LocksAtMax(Some(Next(row, now, p, sweeps)), p)
    ensures Room(k, Some(Next(row, now, p, sweeps)), now, a, b, p, sweeps) < Room(k, row, now, a, b, p, sweeps)
  {
    hide Next, Room, Applies;
    match k
    case Covered => CoveredPays(row, now, a, b, p, sweeps);
    case NoNewStreak => NoNewStreakPays(row, now, a, b, p, sweeps);
    case EarlyLock => EarlyLockPays(row, now, a, b, p, sweeps);
    case LateWindow => LateWindowPays(row, now, a, b, p, sweeps);
  }

  lemma {:induction false} RecordableFitsRoom(k: Reason, row: Option<Attempt>, times: seq<int>, now: int, a: int,
      b: int, p: Policy, sweeps: bool)
    requires p.Valid() && RowOk(row, p) && Applies(k, a, b, p, sweeps)
    requires InsideInOrder(times, a, b) && Recordable(row, times, p, sweeps)
    requires forall i :: 0 <= i < |times| ==> now <= times[i]
    ensures |times| <= Room(k, row, now, a, b, p, sweeps)
    decreases |times|
  {
    hide Next, Room, Applies, RowOk;
    if times != [] {
      var t, rest := times[0], times[1..];
      RoomShrinks(k, row, now, t, a, b, p, sweeps);
      FailureUsesRoom(k, row, t, a, b, p, sweeps);
      assert InsideInOrder(rest, a, b);
      RecordableFitsRoom(k, Some(Next(row, t, p, sweeps)), rest, t, a, b, p, sweeps);
    }
  }

  lemma ReasonBounds(k: Reason, a: int, b: int, p: Policy, sweeps: bool)
    requires p.Valid() && Applies(k, a, b, p, sweeps)
    ensures KeepsAtMost(a, b, p, sweeps, 2 * p.max - 1)
    ensures k.Covered? || k.NoNewStreak? ==> KeepsAtMost(a, b, p, sweeps, Bound(p))
  {
    hide Room, Applies, RowOk, Recordable;
    forall row: Option<Attempt>, times: seq<int> | RowOk(row, p) && InsideInOrder(times, a, b)
        && Recordable(row, times, p, sweeps)
      ensures |times| <= 2 * p.max - 1 && (k.Covered? || k.NoNewStreak? ==> |times| <= Bound(p))
    {
      RecordableFitsRoom(k, row, times, a, a, b, p, sweeps);
      RoomBound(k, row, a, a, b, p, sweeps);
    }
  }

  /**
   * `[a, b)` ends by the stored end of a streak begun at `a` and by the stored end of a lock
   * set at `a`; or, in place of the latter, by the earliest end of a streak not over at `a`.
   */
  predicate Short(a: int, b: int, p: Policy, sweeps: bool) {
    b <= a || Applies(Covered, a, b, p, sweeps) || Applies(NoNewStreak, a, b, p, sweeps)
  }

  /** An interval 999 microseconds shorter than both settings is always short enough. */
  lemma ShortEnough(a: int, b: int, p: Policy, sweeps: bool)
    requires b - a <= p.window - 999 && b - a <= p.lockout - 999
    ensures Short(a, b, p, sweeps)
  {
  }

  /** These failures from this row are more than `n`. */
  lemma Exceeds(row: Option<Attempt>, times: seq<int>, a: int, b: int, p: Policy, sweeps: bool, n: nat)
    requires RowOk(row, p) && InsideInOrder(times, a, b) && Recordable(row, times, p, sweeps) && |times| > n
    ensures !KeepsAtMost(a, b, p, sweeps, n)
  {
  }

  lemma Earlier(t: int, n: nat, rest: seq<int>, a: int, b: int)
    requires a <= t < b && InsideInOrder(rest, t, b)
    ensures InsideInOrder(Repeat(t, n) + rest, a, b) && |Repeat(t, n) + rest| == n + |rest|
  {
  }

  /** `n` failures of a new streak, then `m` of another begun when the first and any lock of it are over. */
  lemma TwoStreaks(row: Option<Attempt>, t: int, n: nat, u: int, m: nat, a: int, b: int, p: Policy, sweeps: bool)
    requires p.Valid() && RowOk(row, p) && !Active(row, t) && Restarts(row, t, p, sweeps)
    requires 1 <= n <= p.max && Trunc(t) + Life(p, sweeps) > t && a <= t <= u < b
    requires n == p.max ==> Trunc(t + p.lockout) <= u
    requires Trunc(t) + Life(p, sweeps) <= u
    requires 1 <= m <= p.max && Trunc(u) + Life(p, sweeps) > u
    ensures !KeepsAtMost(a, b, p, sweeps, n + m - 1)
  {
    hide Next, Recordable, KeepsAtMost, Life, Trunc;
    var last := Repeat(u, m) + [];
    TruncIsWhole(t);
    TruncIsWhole(t + p.lockout);
    Earlier(u, m, [], t, b);
    Earlier(t, n, last, a, b);
    Done(Some(Counted(m, Trunc(u), u, p)), p, sweeps);
    NewStreak(Some(Counted(n, Trunc(t), t, p)), u, m, [], p, sweeps);
    NewStreak(row, t, n, last, p, sweeps);
    Exceeds(row, Repeat(t, n) + last, a, b, p, sweeps, n + m - 1);
  }

  lemma Done(row: Option<Attempt>, p: Policy, sweeps: bool)
    ensures Recordable(row, [], p, sweeps)
  {
  }

  /** `max - 1` failures at `a` and `max` more once their streak is over. */
  lemma StreakThenStreak(a: int, b: int, p: Policy, sweeps: bool)
    requires p.Valid() && p.max >= 2 && a < b && Trunc(a) + Life(p, sweeps) < b
    ensures !KeepsAtMost(a, b, p, sweeps, 2 * p.max - 2)
  {
    hide KeepsAtMost, Recordable;
    var again := Latest(a, Trunc(a) + Life(p, sweeps));
    if Trunc(again) + Life(p, sweeps) <= again {
      NeverCounts(None, again, 2 * p.max - 1, p, sweeps);
      Exceeds(None, Repeat(again, 2 * p.max - 1), a, b, p, sweeps, 2 * p.max - 2);
    } else {
      TwoStreaks(None, a, p.max - 1, again, p.max, a, b, p, sweeps);
    }
  }

  /** A lock below one millisecond is over as soon as it is stored: some instant takes any number. */
  lemma LockOfNothing(a: int, b: int, p: Policy, sweeps: bool, n: nat)
    requires p.Valid() && p.lockout < 1000 && a < b <= Trunc(a) + Life(p, sweeps) && Trunc(a + p.lockout) < b
    ensures !KeepsAtMost(a, b, p, sweeps, n)
  {
    hide KeepsAtMost, Recordable, Life;
    var lock := Trunc(a + p.lockout);
    var again := Latest(a, lock);
    var rest := Repeat(again, n + 1);
    TruncIsWhole(a);
    TruncIsWhole(a + p.lockout);
    assert Trunc(again + p.lockout) <= again;
    hide Trunc;
    NeverLocks(p.max, Trunc(a), lock, again, n + 1, p, sweeps);
    NewStreak(None, a, p.max, rest, p, sweeps);
    Earlier(a, p.max, rest, a, b);
    Exceeds(None, Repeat(a, p.max) + rest, a, b, p, sweeps, n);
  }

  lemma OneMore(row: Option<Attempt>, now: int, p: Policy, sweeps: bool)
    requires !Active(row, now)
    ensures Recordable(row, [now], p, sweeps)
  {
    assert [now][1..] == [];
  }

  /** `max` failures at `a`, and one more when the lock they set is over. */
  lemma LockThenOne(a: int, b: int, p: Policy, sweeps: bool)
    requires p.Valid() && a < b && Trunc(a + p.lockout) < b
    requires p.max == 1 || a < Trunc(a) + Life(p, sweeps)
    ensures !KeepsAtMost(a, b, p, sweeps, p.max)
  {
    hide KeepsAtMost, Recordable, Life, Trunc;
    var again := Latest(a, Trunc(a + p.lockout));
    OneMore(Some(Counted(p.max, Trunc(a), a, p)), again, p, sweeps);
    NewStreak(None, a, p.max, [again], p, sweeps);
    Earlier(a, p.max, [again], a, b);
    Exceeds(None, Repeat(a, p.max) + [again], a, b, p, sweeps, p.max);
  }

  /** The earliest stored start of a streak that is not over at `a`. */
  lemma OldestLive(a: int, b: int, p: Policy, sweeps: bool) returns (first: int)
    requires p.max >= 3 && p.lockout >= 1000 && b <= Trunc(a) + Life(p, sweeps)
    requires !Applies(NoNewStreak, a, b, p, sweeps)
    ensures first % 1000 == 0 && a < first + Life(p, sweeps) < b
  {
    first := Trunc(a - Life(p, sweeps)) + 1000;
    TruncIsWhole(a - Life(p, sweeps));
  }

  /** A streak still alive at `a` locks at `a`; once it and the lock are over, `max` more follow. */
  lemma LockThenStreak(a: int, b: int, p: Policy, sweeps: bool)
    requires p.Valid() && p.max >= 3 && p.lockout >= 1000 && a < b <= Trunc(a) + Life(p, sweeps)
    requires Trunc(a + p.lockout) < b && !Applies(NoNewStreak, a, b, p, sweeps)
    ensures !KeepsAtMost(a, b, p, sweeps, 2 * p.max - 2)
  {
    hide KeepsAtMost, Recordable, Next;
    var first := OldestLive(a, b, p, sweeps);
    var again := Latest(Trunc(a + p.lockout), first + Life(p, sweeps));
    var row, rest := Some(Attempt(1, Some(first), None)), Repeat(again, p.max) + [];
    TruncIsWhole(a + p.lockout);
    TruncGrows(a, again);
    hide Applies, Trunc, Life;
    Done(Some(Counted(p.max, Trunc(again), again, p)), p, sweeps);
    NewStreak(Some(Counted(p.max, first, a, p)), again, p.max, [], p, sweeps);
    StreakGrows(1, first, a, p.max - 1, rest, p, sweeps);
    Earlier(again, p.max, [], a, b);
    Earlier(a, p.max - 1, rest, a, b);
    Exceeds(row, Repeat(a, p.max - 1) + rest, a, b, p, sweeps, 2 * p.max - 2);
  }

  /** The tight bound holds of exactly the `Short` intervals, for all settings, with and without the sweep. */
  lemma BoundHoldsExactlyWhenShort(a: int, b: int, p: Policy, sweeps: bool)
    requires p.Valid()
    ensures KeepsAtMost(a, b, p, sweeps, Bound(p)) <==> Short(a, b, p, sweeps)
  {
    hide KeepsAtMost;
    if b <= a {
      NothingFits(a, b, p, sweeps, Bound(p));
    } else if Applies(Covered, a, b, p, sweeps) {
      ReasonBounds(Covered, a, b, p, sweeps);
    } else if Applies(NoNewStreak, a, b, p, sweeps) {
      ReasonBounds(NoNewStreak, a, b, p, sweeps);
    } else if p.max == 1 {
      LockThenOne(a, b, p, sweeps);
    } else if Trunc(a) + Life(p, sweeps) < b {
      StreakThenStreak(a, b, p, sweeps);
    } else if p.max == 2 {
      LockThenOne(a, b, p, sweeps);
    } else if p.lockout < 1000 {
      LockOfNothing(a, b, p, sweeps, Bound(p));
    } else {
      LockThenStreak(a, b, p, sweeps);
    }
  }

  /** `Bound` is tight: after one earlier failure, a short interval takes that many. */
  lemma BoundIsAttained(p: Policy, sweeps: bool) returns (times: seq<int>, a: int, b: int)
    requires p.max >= 2 && p.window > 1000 && p.lockout > 1000
    ensures Short(a, b, p, sweeps) && Recordable(None, [0] + times, p, sweeps)
    ensures 0 < a && InsideInOrder(times, a, b) && |times| == Bound(p)
  {
    hide Recordable, Next;
    var life := Life(p, sweeps);
    a, b := life - 1, life + 1;
    TruncIsWhole(a + p.lockout);
    assert Trunc(a) >= 1000 && Trunc(life) + life > life && Trunc(0) == 0;
    assert Applies(Covered, a, b, p, sweeps);
    hide Trunc, Life, Applies, Short;
    var last := Repeat(life, p.max) + [];
    times := Repeat(a, p.max - 2) + last;
    Earlier(life, p.max, [], a, b);
    Earlier(a, p.max - 2, last, a, b);
    Done(Some(Counted(p.max, Trunc(life), life, p)), p, sweeps);
    NewStreak(Some(Counted(p.max - 1, 0, a, p)), life, p.max, [], p, sweeps);
    StreakGrows(1, 0, a, p.max - 2, last, p, sweeps);
    assert [0] + times == Repeat(0, 1) + times;
    NewStreak(None, 0, 1, times, p, sweeps);
  }

  lemma NothingFits(a: int, b: int, p: Policy, sweeps: bool, n: nat)
    requires b <= a
    ensures KeepsAtMost(a, b, p, sweeps, n)
  {
    forall row: Option<Attempt>, times: seq<int> | RowOk(row, p) && InsideInOrder(times, a, b)
        && Recordable(row, times, p, sweeps)
      ensures |times| <= n
    {
      if times != [] {
        assert false;
      }
    }
  }

  /** One failure short of two locks. */
  function PlainBound(p: Policy): nat
    requires p.max >= 1
  {
    2 * p.max - 1
  }

  /** No interval that is no longer than either setting takes `2 * max` failures. */
  ghost predicate KeepsPlainBound(p: Policy, sweeps: bool)
    requires p.max >= 1
  {
    forall a: int, b: int :: b - a <= p.window && b - a <= p.lockout ==> KeepsAtMost(a, b, p, sweeps, PlainBound(p))
  }

  function Span(p: Policy): int {
    if p.window < p.lockout then p.window else p.lockout
  }

  /** An interval of that length starting `r` microseconds into a millisecond is too long. */
  predicate Overruns(r: int, p: Policy, sweeps: bool) {
    var life := Life(p, sweeps);
    || (Trunc(r + p.lockout) < r + Span(p) && (p.max == 1 || life < r + Span(p)))
    || (p.max >= 3 && r < life % 1000 && life < r + Span(p))
  }

  /** What a caller can check on the settings: both last a stored millisecond and no offset overruns. */
  predicate Sound(p: Policy, sweeps: bool) {
    && p.lockout >= 1000
    && (p.max == 1 || Life(p, sweeps) >= 1000)
    && forall r :: 0 <= r < 1000 ==> !Overruns(r, p, sweeps)
  }

  lemma SoundSettingsKeep(a: int, b: int, p: Policy, sweeps: bool)
    requires p.Valid() && Sound(p, sweeps) && b - a <= p.window && b - a <= p.lockout
    ensures KeepsAtMost(a, b, p, sweeps, PlainBound(p))
  {
    hide KeepsAtMost;
    var r := a - Trunc(a);
    assert !Overruns(r, p, sweeps);
    assert Trunc(a + p.lockout) == Trunc(a) + Trunc(r + p.lockout);
    if b <= Trunc(a + p.lockout) {
      if p.max == 1 || b <= Trunc(a) + Life(p, sweeps) {
        ReasonBounds(Covered, a, b, p, sweeps);
      } else {
        ReasonBounds(LateWindow, a, b, p, sweeps);
      }
    } else {
      ReasonBounds(EarlyLock, a, b, p, sweeps);
    }
  }

  /** The last failure of an old streak, all but one of a second one and a third one that locks all fit. */
  lemma ThreeStreaksFit(r: int, p: Policy, sweeps: bool)
    requires p.Valid() && p.max >= 3 && 0 <= r < 1000 && Life(p, sweeps) >= 1000
    requires r < Life(p, sweeps) % 1000 && Life(p, sweeps) < r + Span(p)
    ensures !KeepsAtMost(r, r + Span(p), p, sweeps, PlainBound(p))
  {
    hide KeepsAtMost, Recordable, Next;
    var life, b := Life(p, sweeps), r + Span(p);
    var end := life % 1000;
    var first := end - life;
    var third := Repeat(life, p.max) + [];
    var second := Repeat(end, p.max - 1) + third;
    TruncIsWhole(life);
    assert first % 1000 == 0 && Trunc(end) == 0 && Trunc(life) >= 1000 && r < end < life < b;
    hide Trunc, Life;
    Done(Some(Counted(p.max, Trunc(life), life, p)), p, sweeps);
    NewStreak(Some(Counted(p.max - 1, 0, end, p)), life, p.max, [], p, sweeps);
    NewStreak(Some(Counted(2, first, r, p)), end, p.max - 1, third, p, sweeps);
    StreakGrows(1, first, r, 1, second, p, sweeps);
    Earlier(life, p.max, [], end, b);
    Earlier(end, p.max - 1, third, r, b);
    Earlier(r, 1, second, r, b);
    Exceeds(Some(Attempt(1, Some(first), None)), Repeat(r, 1) + second, r, b, p, sweeps, PlainBound(p));
  }

  lemma OverrunFails(r: int, p: Policy, sweeps: bool)
    requires p.Valid() && 0 <= r < 1000 && p.lockout >= 1000 && (p.max == 1 || Life(p, sweeps) >= 1000)
    requires Overruns(r, p, sweeps)
    ensures !KeepsAtMost(r, r + Span(p), p, sweeps, PlainBound(p))
  {
    hide KeepsAtMost;
    if p.max == 1 {
      LockThenOne(r, r + Span(p), p, sweeps);
    } else if Trunc(r + p.lockout) < r + Span(p) && Life(p, sweeps) < r + Span(p) {
      var again := Latest(Trunc(r + p.lockout), Life(p, sweeps));
      TruncIsWhole(r);
      TruncGrows(Life(p, sweeps), again);
      TwoStreaks(None, r, p.max, again, p.max, r, r + Span(p), p, sweeps);
    } else {
      ThreeStreaksFit(r, p, sweeps);
    }
  }

  /** The plain sliding-window bound holds for exactly the `Sound` settings. */
  lemma PlainBoundHoldsExactlyWhenSound(p: Policy, sweeps: bool)
    requires p.Valid()
    ensures KeepsPlainBound(p, sweeps) <==> Sound(p, sweeps)
  {
    hide KeepsAtMost;
    if Sound(p, sweeps) {
      forall a: int, b: int | b - a <= p.window && b - a <= p.lockout
        ensures KeepsAtMost(a, b, p, sweeps, PlainBound(p))
      {
        SoundSettingsKeep(a, b, p, sweeps);
      }
    } else if p.lockout < 1000 {
      LockOfNothing(0, 1, p, sweeps, PlainBound(p));
    } else if p.max >= 2 && Life(p, sweeps) < 1000 {
      NeverCounts(None, 999, 2 * p.max, p, sweeps);
      Exceeds(None, Repeat(999, 2 * p.max), 999, 1000, p, sweeps, PlainBound(p));
    } else {
      var r :| 0 <= r < 1000 && Overruns(r, p, sweeps);
      OverrunFails(r, p, sweeps);
    }
  }

  lemma InMilliseconds(r: int, p: Policy, sweeps: bool)
    requires p.Valid() && p.window % 1000 == 0 && p.lockout % 1000 == 0 && 0 <= r < 1000
    ensures Trunc(r + p.lockout) == p.lockout && Life(p, sweeps) % 1000 == Life(p, sweeps) - p.window
    ensures p.lockout >= 1000 && p.window >= 1000
    ensures p.lockout > p.window ==> p.lockout >= p.window + 1000
    ensures p.lockout < p.window ==> p.window >= p.lockout + 1000
  {
    TruncIsWhole(r + p.lockout);
    var l, w := p.lockout / 1000, p.window / 1000;
    assert p.lockout == 1000 * l && p.window == 1000 * w;
    assert (r + p.lockout) / 1000 == l;
  }

  /** Settings of whole milliseconds: the lock must outlast the window, or fall short of it with a `max` above one. */
  lemma SoundInMilliseconds(p: Policy, sweeps: bool)
    requires p.Valid() && p.window % 1000 == 0 && p.lockout % 1000 == 0
    ensures Sound(p, sweeps) <==> p.lockout > p.window || (p.lockout < p.window && p.max >= 2)
  {
    hide Trunc;
    InMilliseconds(999, p, sweeps);
    if p.lockout == p.window || (p.lockout < p.window && p.max == 1) {
      assert Overruns(999, p, sweeps);
    } else {
      forall r | 0 <= r < 1000 ensures !Overruns(r, p, sweeps) {
        InMilliseconds(r, p, sweeps);
      }
    }
  }

  /** The shipped step-up settings keep the plain bound; the shipped login settings do not, whatever the `max`. */
  lemma ShippedSettings(max: nat)
    requires max >= 1
    ensures KeepsPlainBound(Policy(5, 300_000_000, 900_000_000), false)
    ensures !KeepsPlainBound(Policy(max, 900_000_000, 900_000_000), true)
  {
    hide KeepsPlainBound, Sound;
    SoundInMilliseconds(Policy(5, 300_000_000, 900_000_000), false);
    PlainBoundHoldsExactlyWhenSound(Policy(5, 300_000_000, 900_000_000), false);
    SoundInMilliseconds(Policy(max, 900_000_000, 900_000_000), true);
    PlainBoundHoldsExactlyWhenSound(Policy(max, 900_000_000, 900_000_000), true);
  }

  /** At the shipped login settings, 900 seconds from 0.999 ms on take `2 * max` failures of one clean bucket. */
  lemma FullWindowIsTooLong(max: nat) returns (times: seq<int>)
    requires max >= 1
    ensures Recordable(None, times, Policy(max, 900_000_000, 900_000_000), true)
    ensures InsideInOrder(times, 999, 999 + 900_000_000) && |times| == 2 * max
  {
    hide Recordable, Next;
    var p := Policy(max, 900_000_000, 900_000_000);
    var last := Repeat(900_000_000, max) + [];
    times := Repeat(999, max) + last;
    Earlier(900_000_000, max, [], 999, 999 + 900_000_000);
    Earlier(999, max, last, 999, 999 + 900_000_000);
    Done(Some(Counted(max, 900_000_000, 900_000_000, p)), p, true);
    NewStreak(Some(Counted(max, 0, 999, p)), 900_000_000, max, [], p, true);
    NewStreak(None, 999, max, last, p, true);
  }
}
