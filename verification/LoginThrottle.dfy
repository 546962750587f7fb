/** `ansina.auth.login_throttle` over the `login_attempts` table. */
module LoginThrottle {
  import opened Wrappers
  import opened Clock
  import opened Lockout
  import opened LockoutBounds

  datatype Scope = Username | Ip

  /** The table's key. A username is stored casefolded. */
  datatype Bucket = Bucket(scope: Scope, key: string)

  type Attempts = map<Bucket, Attempt>

  datatype Settings = Settings(maxPerUsername: nat, maxPerIp: nat, window: int, lockout: int) {
    predicate Valid() {
      maxPerUsername >= 1 && maxPerIp >= 1 && window > 0 && lockout > 0
    }

    function For(scope: Scope): Policy {
      Policy(if scope == Username then maxPerUsername else maxPerIp, window, lockout)
    }
  }

  predicate Locked(t: Attempts, username: string, ip: string, now: int) {
    Active(Get(t, Bucket(Username, username)), now) || Active(Get(t, Bucket(Ip, ip)), now)
  }

  function Swept(t: Attempts, now: int, window: int): Attempts {
    map k | k in t && !Expired(t[k], now, window) :: t[k]
  }

  function Bumped(t: Attempts, b: Bucket, now: int, s: Settings): Attempts {
    t[b := Bump(Get(t, b), now, s.For(b.scope))]
  }

  function Failed(t: Attempts, username: string, ip: string, now: int, s: Settings): Attempts {
    Bumped(Bumped(Swept(t, now, s.window), Bucket(Username, username), now, s), Bucket(Ip, ip), now, s)
  }

  function Cleared(t: Attempts, username: string, ip: string): Attempts {
    t - {Bucket(Username, username)} - {Bucket(Ip, ip)}
  }

  class LoginThrottle {
    const settings: Settings
    /** `str.casefold`, left uninterpreted. */
    const casefold: string -> string
    var attempts: Attempts

    constructor (settings: Settings, casefold: string -> string)
      ensures this.settings == settings && this.casefold == casefold && attempts == map[]
    {
      this.settings, this.casefold, attempts := settings, casefold, map[];
    }

    /**
     * Refuses exactly while either bucket is locked, and names the wait after
     * which this check, run on the same table, first passes.
     */
    method Check(username: string, ip: string, now: int) returns (r: Result<(), int>)
      ensures r.Failure? <==> Locked(attempts, casefold(username), ip, now)
      ensures r.Failure? ==> r.error > 0
      ensures r.Failure? ==> forall t :: Locked(attempts, casefold(username), ip, t) <==> t < now + r.error
    {
      var usernameRow := Get(attempts, Bucket(Username, casefold(username)));
      var ipRow := Get(attempts, Bucket(Ip, ip));
      var retryAfters: seq<int> := [];
      if Active(usernameRow, now) {
        retryAfters := retryAfters + [usernameRow.value.lockedUntil.value - now];
      }
      if Active(ipRow, now) {
        retryAfters := retryAfters + [ipRow.value.lockedUntil.value - now];
      }
      if retryAfters == [] {
        return Success(());
      }
      var longest := retryAfters[0];
      if |retryAfters| == 2 && retryAfters[1] > longest {
        longest := retryAfters[1];
      }
      return Failure(if longest > 0 then longest else 0);
    }

    method RecordFailure(username: string, ip: string, now: int)
      modifies this`attempts
      ensures attempts == Failed(old(attempts), casefold(username), ip, now, settings)
    {
      attempts := map k | k in attempts && !Expired(attempts[k], now, settings.window) :: attempts[k];
      BumpBucket(Username, casefold(username), now);
      BumpBucket(Ip, ip, now);
    }

    method BumpBucket(scope: Scope, key: string, now: int)
      modifies this`attempts
      ensures attempts == Bumped(old(attempts), Bucket(scope, key), now, settings)
    {
      var policy := settings.For(scope);
      var current := Get(attempts, Bucket(scope, key));
      var firstFailedAt := now;
      if current.Some? && current.value.firstFailedAt.Some? {
        firstFailedAt := current.value.firstFailedAt.value;
      }
      var failedCount := 1;
      if now - firstFailedAt > policy.window {
        firstFailedAt := now;
      } else if current.Some? {
        failedCount := current.value.failedCount + 1;
      }
      var lockedUntil: Option<int> := None;
      if failedCount >= policy.max {
        lockedUntil := Some(Trunc(now + policy.lockout));
      }
      attempts := attempts[Bucket(scope, key) := Attempt(failedCount, Some(Trunc(firstFailedAt)), lockedUntil)];
    }

    method RecordSuccess(username: string, ip: string)
      modifies this`attempts
      ensures attempts == Cleared(old(attempts), casefold(username), ip)
      ensures Bucket(Username, casefold(username)) !in attempts && Bucket(Ip, ip) !in attempts
      ensures forall k :: k != Bucket(Username, casefold(username)) && k != Bucket(Ip, ip) ==>
                Get(attempts, k) == Get(old(attempts), k)
    {
      attempts := attempts - {Bucket(Username, casefold(username))};
      attempts := attempts - {Bucket(Ip, ip)};
    }

    /** The order `POST /auth/login` uses: check, verify the password, then record. */
    method Login(username: string, ip: string, checkedAt: int, recordedAt: int, ok: bool) returns (refused: bool)
      modifies this`attempts
      ensures var e := Event(casefold(username), ip, checkedAt, recordedAt, ok);
              && refused == Refused(old(attempts), e)
              && attempts == Step(old(attempts), e, settings)
    {
      var verdict := Check(username, ip, checkedAt);
      if verdict.Failure? {
        return true;
      }
      if ok {
        RecordSuccess(username, ip);
      } else {
        RecordFailure(username, ip, recordedAt);
      }
      return false;
    }
  }

  /** One login attempt; it looks at the locks at `checkedAt` and records its result at `recordedAt`. */
  datatype Event = Event(username: string, ip: string, checkedAt: int, recordedAt: int, ok: bool)

  predicate Refused(t: Attempts, e: Event) {
    Locked(t, e.username, e.ip, e.checkedAt)
  }

  function Step(t: Attempts, e: Event, s: Settings): Attempts {
    if Refused(t, e) then t
    else if e.ok then Cleared(t, e.username, e.ip)
    else Failed(t, e.username, e.ip, e.recordedAt, s)
  }

  /** Attempts one at a time, on a clock that never goes back. */
  predicate Sequential(es: seq<Event>) {
    && (forall i :: 0 <= i < |es| ==> es[i].checkedAt <= es[i].recordedAt)
    && (forall i, j :: 0 <= i < j < |es| ==> es[i].recordedAt <= es[j].checkedAt)
  }

  predicate Touches(e: Event, b: Bucket) {
    match b.scope
    case Username => e.username == b.key
    case Ip => e.ip == b.key
  }

  predicate Fails(t: Attempts, e: Event, b: Bucket) {
    !Refused(t, e) && !e.ok && Touches(e, b)
  }

  /** Failures recorded against `b` at times in `[from, to)` while `es` runs from table `t`. */
  function Failures(t: Attempts, es: seq<Event>, b: Bucket, from: int, to: int, s: Settings): nat
    decreases |es|
  {
    if es == [] then 0
    else (if Fails(t, es[0], b) && from <= es[0].recordedAt < to then 1 else 0)
         + Failures(Step(t, es[0], s), es[1..], b, from, to, s)
  }

  /** No successful login of this bucket at a time in `[from, to)`. */
  predicate NoSuccess(t: Attempts, es: seq<Event>, b: Bucket, from: int, to: int, s: Settings)
    decreases |es|
  {
    es == [] ||
    (!(!Refused(t, es[0]) && es[0].ok && Touches(es[0], b) && from <= es[0].recordedAt < to)
     && NoSuccess(Step(t, es[0], s), es[1..], b, from, to, s))
  }

  predicate TableOk(t: Attempts, s: Settings) {
    forall k :: k in t ==> RowOk(Some(t[k]), s.For(k.scope))
  }

  lemma StepKeepsTableOk(t: Attempts, e: Event, s: Settings)
    requires s.Valid() && TableOk(t, s)
    ensures TableOk(Step(t, e, s), s)
  {
    if !Refused(t, e) && !e.ok {
      var t1 := Swept(t, e.recordedAt, s.window);
      BumpOk(Get(t1, Bucket(Username, e.username)), e.recordedAt, s.For(Username));
      BumpOk(Get(t1, Bucket(Ip, e.ip)), e.recordedAt, s.For(Ip));
    }
  }

  lemma TailIsSequential(es: seq<Event>)
    requires es != [] && Sequential(es)
    ensures Sequential(es[1..])
    ensures forall i :: 0 <= i < |es[1..]| ==> es[0].recordedAt <= es[1..][i].checkedAt <= es[1..][i].recordedAt
  {
    forall i, j | 0 <= i < j < |es[1..]|
      ensures es[1..][i].recordedAt <= es[1..][j].checkedAt
    {
      assert es[i + 1].recordedAt <= es[j + 1].checkedAt;
    }
    forall i | 0 <= i < |es[1..]|
      ensures es[0].recordedAt <= es[1..][i].checkedAt <= es[1..][i].recordedAt
    {
      assert es[1..][i] == es[i + 1];
    }
  }

  lemma {:induction false} NoneAfter(t: Attempts, es: seq<Event>, b: Bucket, from: int, to: int, s: Settings)
    requires forall i :: 0 <= i < |es| ==> es[i].recordedAt >= to
    ensures Failures(t, es, b, from, to, s) == 0
    decreases |es|
  {
    if es != [] {
      NoneAfter(Step(t, es[0], s), es[1..], b, from, to, s);
    }
  }

  lemma FailedRow(t: Attempts, e: Event, b: Bucket, s: Settings)
    requires !Refused(t, e) && !e.ok
    ensures var kept := Get(Swept(t, e.recordedAt, s.window), b);
            Get(Step(t, e, s), b) == if Touches(e, b) then Some(Bump(kept, e.recordedAt, s.For(b.scope))) else kept
  {
  }

  /** The bucket's row is `row`, or some other bucket's failure swept `row` away, by `now` at the latest. */
  predicate StandsFor(row: Option<Attempt>, stored: Option<Attempt>, now: int, window: int) {
    stored == row || (stored.None? && row.Some? && Expired(row.value, now, window))
  }

  /** A row swept early behaves like one swept at the bucket's own next failure. */
  lemma EarlySweepIsUnseen(row: Option<Attempt>, stored: Option<Attempt>, now: int, checkedAt: int, recordedAt: int,
      p: Policy)
    requires p.Valid() && RowOk(row, p) && StandsFor(row, stored, now, p.window)
    requires now <= recordedAt && checkedAt <= recordedAt && !Active(stored, checkedAt)
    ensures !Active(row, recordedAt)
    ensures Next(row, recordedAt, p, true)
         == Bump(if stored.Some? && Expired(stored.value, recordedAt, p.window) then None else stored, recordedAt, p)
  {
    TruncGrows(now, recordedAt);
    TruncGrows(now - p.window, recordedAt - p.window);
    hide Trunc, Bump;
  }

  /** One event of the interval that is no success of `b`, as the bucket's own history sees it. */
  lemma StepStandsFor(t: Attempts, e: Event, b: Bucket, row: Option<Attempt>, now: int, s: Settings)
    requires s.Valid() && RowOk(row, s.For(b.scope)) && StandsFor(row, Get(t, b), now, s.window)
    requires now <= e.checkedAt <= e.recordedAt && !(!Refused(t, e) && e.ok && Touches(e, b))
    ensures Fails(t, e, b) ==>
              && !Active(row, e.recordedAt)
              && Get(Step(t, e, s), b) == Some(Next(row, e.recordedAt, s.For(b.scope), true))
    ensures !Fails(t, e, b) ==> StandsFor(row, Get(Step(t, e, s), b), e.recordedAt, s.window)
  {
    hide Next, RowOk;
    TruncGrows(now, e.recordedAt);
    TruncGrows(now - s.window, e.recordedAt - s.window);
    if !Refused(t, e) && !e.ok {
      FailedRow(t, e, b, s);
      if Touches(e, b) {
        EarlySweepIsUnseen(row, Get(t, b), now, e.checkedAt, e.recordedAt, s.For(b.scope));
      }
    }
    hide Trunc, Bump;
  }

  /** The failures a history records against `b` in `[from, to)` are failures of that one row, in order. */
  lemma {:induction false} FailuresAreRecordable(t: Attempts, es: seq<Event>, b: Bucket, row: Option<Attempt>, now: int,
      from: int, to: int, s: Settings) returns (times: seq<int>)
    requires s.Valid() && RowOk(row, s.For(b.scope)) && StandsFor(row, Get(t, b), now, s.window)
    requires Sequential(es) && NoSuccess(t, es, b, from, to, s)
    requires forall i :: 0 <= i < |es| ==> now <= es[i].checkedAt && from <= es[i].recordedAt
    ensures |times| == Failures(t, es, b, from, to, s) && Recordable(row, times, s.For(b.scope), true)
    ensures InsideInOrder(times, from, to) && forall i :: 0 <= i < |times| ==> now <= times[i]
    decreases |es|
  {
    hide Next, RowOk, Step, Refused, StandsFor;
    if es == [] || es[0].recordedAt >= to {
      NoneAfter(t, es, b, from, to, s);
      return [];
    }
    var e, p := es[0], s.For(b.scope);
    TailIsSequential(es);
    StepStandsFor(t, e, b, row, now, s);
    if Fails(t, e, b) {
      NextIsCounted(row, e.recordedAt, p, true);
      var next := Some(Next(row, e.recordedAt, p, true));
      Stands(next, Get(Step(t, e, s), b), e.recordedAt, s.window);
      var rest := FailuresAreRecordable(Step(t, e, s), es[1..], b, next, e.recordedAt, from, to, s);
      times := [e.recordedAt] + rest;
      assert times[1..] == rest;
    } else {
      times := FailuresAreRecordable(Step(t, e, s), es[1..], b, row, e.recordedAt, from, to, s);
    }
  }

  lemma Stands(row: Option<Attempt>, stored: Option<Attempt>, now: int, window: int)
    requires row == stored
    ensures StandsFor(row, stored, now, window)
  {
  }

  /**
   * From any well-formed table, whatever else happens to any bucket, `b` records at
   * most `n` failures in `[from, to)` when the interval holds none of its successes.
   */
  ghost predicate HistoriesKeepAtMost(b: Bucket, from: int, to: int, s: Settings, n: nat) {
    forall t: Attempts, es: seq<Event> ::
      TableOk(t, s) && Sequential(es) && NoSuccess(t, es, b, from, to, s) ==> Failures(t, es, b, from, to, s) <= n
  }

  lemma {:induction false} HistoryKeepsAtMost(t: Attempts, es: seq<Event>, b: Bucket, from: int, to: int, s: Settings,
      n: nat)
    requires s.Valid() && TableOk(t, s) && KeepsAtMost(from, to, s.For(b.scope), true, n)
    requires Sequential(es) && NoSuccess(t, es, b, from, to, s)
    ensures Failures(t, es, b, from, to, s) <= n
    decreases |es|
  {
    if es != [] {
      TailIsSequential(es);
      if es[0].recordedAt < from {
        StepKeepsTableOk(t, es[0], s);
        HistoryKeepsAtMost(Step(t, es[0], s), es[1..], b, from, to, s, n);
      } else {
        var times := FailuresAreRecordable(t, es, b, Get(t, b), es[0].checkedAt, from, to, s);
        assert RowOk(Get(t, b), s.For(b.scope));
      }
    }
  }

  /** A wrong password against `b` at `time`, from the `i`th address or for the `i`th unknown name. */
  function Attack(b: Bucket, i: nat, time: int): Event {
    var other := seq(i, _ => 'x');
    Event(if b.scope == Username then b.key else other, if b.scope == Username then other else b.key, time, time, false)
  }

  function Attacks(b: Bucket, i: nat, times: seq<int>): (es: seq<Event>)
    ensures |es| == |times| && forall j :: 0 <= j < |es| ==> es[j] == Attack(b, i + j, times[j])
    decreases |times|
  {
    if times == [] then [] else [Attack(b, i, times[0])] + Attacks(b, i + 1, times[1..])
  }

  function Other(scope: Scope): Scope {
    if scope == Username then Ip else Username
  }

  /** No bucket of the other scope holds a key that attack `i` or a later one brings along. */
  predicate Unseen(t: Attempts, b: Bucket, i: nat) {
    forall k :: k in t && k.scope == Other(b.scope) ==> |k.key| < i
  }

  lemma AttackStep(t: Attempts, b: Bucket, i: nat, time: int, s: Settings)
    requires s.Valid() && Unseen(t, b, i) && !Active(Get(t, b), time)
    ensures Fails(t, Attack(b, i, time), b) && Unseen(Step(t, Attack(b, i, time), s), b, i + 1)
    ensures Get(Step(t, Attack(b, i, time), s), b) == Some(Next(Get(t, b), time, s.For(b.scope), true))
  {
    var e := Attack(b, i, time);
    assert Get(t, Bucket(Other(b.scope), seq(i, _ => 'x'))).None?;
    FailedRow(t, e, b, s);
    hide Bump, Expired;
  }

  /** Every sequence of failures the row can take is the failures of some history. */
  lemma {:induction false} AttacksFail(t: Attempts, b: Bucket, i: nat, times: seq<int>, from: int, to: int, s: Settings)
    requires s.Valid() && Unseen(t, b, i) && InsideInOrder(times, from, to)
    requires Recordable(Get(t, b), times, s.For(b.scope), true)
    ensures NoSuccess(t, Attacks(b, i, times), b, from, to, s)
    ensures Failures(t, Attacks(b, i, times), b, from, to, s) == |times|
    decreases |times|
  {
    hide Next, Step;
    if times != [] {
      AttackStep(t, b, i, times[0], s);
      assert Attacks(b, i, times)[1..] == Attacks(b, i + 1, times[1..]);
      AttacksFail(Step(t, Attack(b, i, times[0]), s), b, i + 1, times[1..], from, to, s);
    }
  }

  /** Interleaving with other buckets neither adds to nor takes from what one row allows. */
  lemma HistoriesAreRows(b: Bucket, from: int, to: int, s: Settings, n: nat)
    requires s.Valid()
    ensures HistoriesKeepAtMost(b, from, to, s, n) <==> KeepsAtMost(from, to, s.For(b.scope), true, n)
  {
    hide RowOk, Step;
    if KeepsAtMost(from, to, s.For(b.scope), true, n) {
      forall t: Attempts, es: seq<Event> | TableOk(t, s) && Sequential(es) && NoSuccess(t, es, b, from, to, s)
        ensures Failures(t, es, b, from, to, s) <= n
      {
        HistoryKeepsAtMost(t, es, b, from, to, s, n);
      }
    } else {
      var row: Option<Attempt>, times: seq<int> :| RowOk(row, s.For(b.scope)) && InsideInOrder(times, from, to)
        && Recordable(row, times, s.For(b.scope), true) && |times| > n;
      var t: Attempts := if row.Some? then map[b := row.value] else map[];
      assert Get(t, b) == row;
      AttacksFail(t, b, 0, times, from, to, s);
      assert TableOk(t, s) && Sequential(Attacks(b, 0, times));
    }
  }

  /** The tight sliding-window bound of a bucket holds of exactly the `Short` intervals. */
  lemma SlidingWindowBound(b: Bucket, from: int, to: int, s: Settings)
    requires s.Valid()
    ensures HistoriesKeepAtMost(b, from, to, s, Bound(s.For(b.scope))) <==> Short(from, to, s.For(b.scope), true)
  {
    hide HistoriesKeepAtMost, KeepsAtMost;
    HistoriesAreRows(b, from, to, s, Bound(s.For(b.scope)));
    BoundHoldsExactlyWhenShort(from, to, s.For(b.scope), true);
  }

  /** Of all intervals no longer than the two settings, it holds with `2 * max - 1` for exactly the `Sound` settings. */
  lemma PlainWindowBound(b: Bucket, s: Settings)
    requires s.Valid()
    ensures (forall from: int, to: int :: to - from <= s.window && to - from <= s.lockout ==>
               HistoriesKeepAtMost(b, from, to, s, PlainBound(s.For(b.scope))))
       <==> Sound(s.For(b.scope), true)
  {
    hide HistoriesKeepAtMost, KeepsAtMost, Sound;
    forall from: int, to: int
      ensures HistoriesKeepAtMost(b, from, to, s, PlainBound(s.For(b.scope)))
         <==> KeepsAtMost(from, to, s.For(b.scope), true, PlainBound(s.For(b.scope)))
    {
      HistoriesAreRows(b, from, to, s, PlainBound(s.For(b.scope)));
    }
    PlainBoundHoldsExactlyWhenSound(s.For(b.scope), true);
  }

  /** At the shipped 900 s and 900 s, some history from an empty table records `2 * max` failures in 900 s. */
  lemma ShippedSettingsOverrun(b: Bucket, maxPerUsername: nat, maxPerIp: nat) returns (es: seq<Event>)
    requires maxPerUsername >= 1 && maxPerIp >= 1
    ensures var s, from := Settings(maxPerUsername, maxPerIp, 900_000_000, 900_000_000), 999;
            && Sequential(es) && NoSuccess(map[], es, b, from, from + s.window, s)
            && Failures(map[], es, b, from, from + s.window, s) == 2 * s.For(b.scope).max
  {
    hide Recordable;
    var s := Settings(maxPerUsername, maxPerIp, 900_000_000, 900_000_000);
    var times := FullWindowIsTooLong(s.For(b.scope).max);
    AttacksFail(map[], b, 0, times, 999, 999 + 900_000_000, s);
    es := Attacks(b, 0, times);
  }

  // ----- what a success forgets -----

  /** A success takes its two buckets out of the table and leaves every other row. */
  lemma SuccessClearsBothBuckets(t: Attempts, e: Event, s: Settings)
    requires !Refused(t, e) && e.ok
    ensures var after := Step(t, e, s);
            && Bucket(Username, e.username) !in after && Bucket(Ip, e.ip) !in after
            && forall k :: k != Bucket(Username, e.username) && k != Bucket(Ip, e.ip) ==> Get(after, k) == Get(t, k)
  {
  }

  /** The table after a whole history. */
  function Run(t: Attempts, es: seq<Event>, s: Settings): Attempts
    decreases |es|
  {
    if es == [] then t else Run(Step(t, es[0], s), es[1..], s)
  }

  lemma {:induction false} AttacksLeave(t: Attempts, b: Bucket, i: nat, times: seq<int>, s: Settings)
    requires s.Valid() && Unseen(t, b, i) && Recordable(Get(t, b), times, s.For(b.scope), true)
    ensures Get(Run(t, Attacks(b, i, times), s), b) == After(Get(t, b), times, s.For(b.scope), true)
    decreases |times|
  {
    hide Next, Step;
    if times != [] {
      AttackStep(t, b, i, times[0], s);
      assert Attacks(b, i, times)[1..] == Attacks(b, i + 1, times[1..]);
      AttacksLeave(Step(t, Attack(b, i, times[0]), s), b, i + 1, times[1..], s);
    }
  }

  /** How many failures lock a bucket: names and addresses have a setting each. */
  function MaxFor(s: Settings, scope: Scope): nat {
    match scope
    case Username => s.maxPerUsername
    case Ip => s.maxPerIp
  }

  lemma PolicyOf(s: Settings, scope: Scope)
    requires s.Valid()
    ensures s.For(scope).Valid() && Life(s.For(scope), true) == s.window
    ensures s.For(scope) == Policy(MaxFor(s, scope), s.window, s.lockout)
  {
  }

  /** A bucket without a row takes `max` failures within one window, and exactly the last of them sets a lock. */
  lemma CleanBucketTakesMaxAttacks(t: Attempts, b: Bucket, i: nat, times: seq<int>, s: Settings)
    requires s.Valid() && Get(t, b) == None && Unseen(t, b, i) && 1 <= |times| <= MaxFor(s, b.scope)
    requires InsideInOrder(times, times[0], Trunc(times[0]) + s.window)
    ensures Failures(t, Attacks(b, i, times), b, times[0], Trunc(times[0]) + s.window, s) == |times|
    ensures CountsJust(Get(Run(t, Attacks(b, i, times), s), b), times, Policy(MaxFor(s, b.scope), s.window, s.lockout))
  {
    hide *;
    PolicyOf(s, b.scope);
    CleanBucketTakesMax(times, s.For(b.scope), true);
    AttacksFail(t, b, i, times, times[0], Trunc(times[0]) + s.window, s);
    AttacksLeave(t, b, i, times, s);
  }

  /**
   * A success forgets every failure before it: whatever the table held, the bucket then takes
   * `max` failures within one window, none of them refused, and exactly the last sets a lock.
   */
  lemma SuccessForgetsFailures(t: Attempts, e: Event, b: Bucket, i: nat, times: seq<int>, s: Settings)
    requires s.Valid() && !Refused(t, e) && e.ok && Touches(e, b) && Unseen(Step(t, e, s), b, i)
    requires 1 <= |times| <= MaxFor(s, b.scope)
    requires InsideInOrder(times, times[0], Trunc(times[0]) + s.window)
    ensures Failures(Step(t, e, s), Attacks(b, i, times), b, times[0], Trunc(times[0]) + s.window, s) == |times|
    ensures CountsJust(Get(Run(Step(t, e, s), Attacks(b, i, times), s), b), times,
                       Policy(MaxFor(s, b.scope), s.window, s.lockout))
  {
    SuccessClearsBothBuckets(t, e, s);
    assert Get(Step(t, e, s), b) == None;
    hide *;
    CleanBucketTakesMaxAttacks(Step(t, e, s), b, i, times, s);
  }
}
