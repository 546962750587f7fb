/** `ansina.auth.sudo` over the `sudo_grants` and `sudo_lockouts` tables. */
module Sudo {
  import opened Wrappers
  import opened Clock
  import opened Lockout
  import opened LockoutBounds

  type User = string

  /** One `sudo_grants` row; the raw token is never stored. */
  datatype Grant = Grant(tokenHash: string, salt: string, verifier: string, issuedAt: int, expiresAt: int,
      revoked: bool)

  datatype Tables = Tables(grants: map<User, Grant>, lockouts: map<User, Attempt>)

  datatype Settings = Settings(policy: Policy, ttl: int)

  /** What one `step_up` call brings with it: the enrolled factors, the payload and the fresh token. */
  datatype Request = Request(user: User, now: int, factors: seq<string>, factor: Option<string>,
                             verifies: string -> bool, token: string, salt: string)

  datatype Outcome = LockedOut(retryAfter: int) | FactorUnavailable | Denied | Granted(verifier: string, expiresAt: int)

  type Hash = (string, string) -> string

  /** Distinct tokens hash apart under every salt: the one assumption on SHA-256. */
  ghost predicate Injective(hash: Hash) {
    forall a: string, b: string, salt: string {:trigger hash(a, salt),
        hash(b, salt)} :: hash(a, salt) == hash(b, salt) ==> a == b
  }

  /** `_resolve_factor`: a named factor if enrolled, else the only enrolled one. */
  function ResolveFactor(factors: seq<string>, requested: Option<string>): (r: Option<string>)
    ensures r.Some? ==> r.value in factors
    ensures requested.Some? && requested.value != "" ==>
              (r.Some? <==> requested.value in factors) && (r.Some? ==> r == requested)
    ensures requested.None? || requested.value == "" ==> (r.Some? <==> |factors| == 1)
  {
    if requested.Some? && requested.value != "" then
      if requested.value in factors then requested else None
    else if |factors| == 1 then Some(factors[0])
    else None
  }

  function StepUpOutcome(t: Tables, q: Request, s: Settings): Outcome {
    var lockout := Get(t.lockouts, q.user);
    var factor := ResolveFactor(q.factors, q.factor);
    if Active(lockout, q.now) then LockedOut(lockout.value.lockedUntil.value - q.now)
    else if factor.None? then FactorUnavailable
    else if !q.verifies(factor.value) then Denied
    else Granted(factor.value, Trunc(q.now + s.ttl))
  }

  function SteppedUp(t: Tables, q: Request, hash: Hash, s: Settings): Tables {
    match StepUpOutcome(t, q, s)
    case Denied => t.(lockouts := t.lockouts[q.user := Bump(Get(t.lockouts, q.user), q.now, s.policy)])
    case Granted(verifier, expiresAt) =>
      Tables(t.grants[q.user := Grant(hash(q.token, q.salt), q.salt, verifier, Trunc(q.now), expiresAt, false)],
             t.lockouts - {q.user})
    case _ => t
  }

  /** `find_active`: the user's own unrevoked, unexpired grant, if the token is its token. */
  function FindActive(t: Tables, user: User, token: string, now: int, hash: Hash): Option<Grant> {
    if user in t.grants && !t.grants[user].revoked && t.grants[user].expiresAt > Trunc(now)
       && hash(token, t.grants[user].salt) == t.grants[user].tokenHash
    then Some(t.grants[user])
    else None
  }

  class SudoService {
    const settings: Settings
    const hash: Hash
    var grants: map<User, Grant>
    var lockouts: map<User, Attempt>

    ghost function State(): Tables
      reads this
    {
      Tables(grants, lockouts)
    }

    constructor (settings: Settings, hash: Hash)
      ensures this.settings == settings && this.hash == hash && State() == Tables(map[], map[])
    {
      this.settings, this.hash, grants, lockouts := settings, hash, map[], map[];
    }

    method StepUp(q: Request) returns (r: Outcome)
      modifies this
      ensures r == StepUpOutcome(old(State()), q, settings)
      ensures State() == SteppedUp(old(State()), q, hash, settings)
    {
      var lockout := Get(lockouts, q.user);
      if Active(lockout, q.now) {
        var retryAfter := lockout.value.lockedUntil.value - q.now;
        return LockedOut(if retryAfter > 0 then retryAfter else 0);
      }
      var factor := ResolveFactor(q.factors, q.factor);
      if factor.None? {
        return FactorUnavailable;
      }
      if !q.verifies(factor.value) {
        RecordFailure(q.user, q.now);
        return Denied;
      }
      lockouts := lockouts - {q.user};
      var expiresAt := q.now + settings.ttl;
      grants := grants - {q.user};
      grants := grants[q.user := Grant(hash(q.token, q.salt), q.salt, factor.value, Trunc(q.now), Trunc(expiresAt),
          false)];
      r := Granted(factor.value, grants[q.user].expiresAt);
      assert grants == old(grants)[q.user := grants[q.user]];
    }

    method RecordFailure(user: User, now: int)
      modifies this`lockouts
      ensures lockouts == old(lockouts)[user := Bump(Get(old(lockouts), user), now, settings.policy)]
    {
      var current := Get(lockouts, user);
      var firstFailedAt := now;
      if current.Some? && current.value.firstFailedAt.Some? {
        firstFailedAt := current.value.firstFailedAt.value;
      }
      var failedCount := 1;
      if now - firstFailedAt > settings.policy.window {
        firstFailedAt := now;
      } else if current.Some? {
        failedCount := current.value.failedCount + 1;
      }
      var lockedUntil: Option<int> := None;
      if failedCount >= settings.policy.max {
        lockedUntil := Some(Trunc(now + settings.policy.lockout));
      }
      lockouts := lockouts[user := Attempt(failedCount, Some(Trunc(firstFailedAt)), lockedUntil)];
    }

    method Resolve(user: User, token: string, now: int) returns (r: Option<Grant>)
      ensures r == FindActive(State(), user, token, now, hash)
    {
      if user !in grants || grants[user].revoked || grants[user].expiresAt <= Trunc(now) {
        return None;
      }
      if hash(token, grants[user].salt) != grants[user].tokenHash {
        return None;
      }
      return Some(grants[user]);
    }

    method RevokeForUser(user: User)
      modifies this`grants
      ensures State() == Apply(old(State()), Revoke(user), hash, settings)
    {
      if user in grants {
        grants := grants[user := grants[user].(revoked := true)];
      }
    }

    method RevokeEverything()
      modifies this`grants
      ensures State() == Apply(old(State()), RevokeAll, hash, settings)
    {
      grants := map u | u in grants :: grants[u].(revoked := true);
    }

    /** The `sudo_grants` part of `UserRepository.soft_delete`. */
    method DropForTombstone(user: User)
      modifies this`grants
      ensures State() == Apply(old(State()), Tombstone(user), hash, settings)
    {
      grants := grants - {user};
    }
  }

  datatype Event = StepUp(request: Request) | Revoke(user: User) | RevokeAll | Tombstone(user: User)

  function Apply(t: Tables, e: Event, hash: Hash, s: Settings): Tables {
    match e
    case StepUp(q) => SteppedUp(t, q, hash, s)
    case Revoke(user) => if user in t.grants
        then t.(grants := t.grants[user := t.grants[user].(revoked := true)]) else t
    case RevokeAll => t.(grants := map u | u in t.grants :: t.grants[u].(revoked := true))
    case Tombstone(user) => t.(grants := t.grants - {user})
  }

  /** The tables after a whole history, oldest event first. */
  function Replay(history: seq<Event>, hash: Hash, s: Settings): Tables {
    if history == [] then Tables(map[], map[])
    else Apply(Replay(history[..|history| - 1], hash, s), history[|history| - 1], hash, s)
  }

  /** Event `i` of the history ended one grant's life or began one: the only events a grant answers to. */
  predicate DecidesGrant(history: seq<Event>, i: nat, user: User, hash: Hash, s: Settings)
    requires i < |history|
  {
    match history[i]
    case StepUp(q) => q.user == user && StepUpOutcome(Replay(history[..i], hash, s), q, s).Granted?
    case Revoke(u) => u == user
    case RevokeAll => true
    case Tombstone(u) => u == user
  }

  /** `i` is the latest grant event of `user`, and it is the step-up that issued `token`, still in its TTL. */
  predicate LatestIssues(history: seq<Event>, i: nat, user: User, token: string, now: int, hash: Hash, s: Settings)
    requires i < |history|
  {
    && DecidesGrant(history, i, user, hash, s)
    && (forall j :: i < j < |history| ==> !DecidesGrant(history, j, user, hash, s))
    && history[i].StepUp?
    && history[i].request.token == token
    && Trunc(history[i].request.now + s.ttl) > Trunc(now)
  }

  lemma PrefixDecides(history: seq<Event>, n: nat, i: nat, user: User, hash: Hash, s: Settings)
    requires i < n <= |history|
    ensures DecidesGrant(history[..n], i, user, hash, s) == DecidesGrant(history, i, user, hash, s)
  {
    assert history[..n][..i] == history[..i];
  }

  /** The last event decides: then it alone can be the issuing step-up. */
  lemma DecidedByLast(history: seq<Event>, user: User, token: string, now: int, hash: Hash, s: Settings)
    requires Injective(hash)
    requires history != [] && DecidesGrant(history, |history| - 1, user, hash, s)
    ensures FindActive(Replay(history, hash, s), user, token, now, hash).Some?
       <==> LatestIssues(history, |history| - 1, user, token, now, hash, s)
    ensures forall i :: 0 <= i < |history| - 1 ==> !LatestIssues(history, i, user, token, now, hash, s)
  {
  }

  /** The last event decides nothing: the same step-ups issue before and after it. */
  lemma UndecidedKeepsLatest(history: seq<Event>, i: nat, user: User, token: string, now: int, hash: Hash, s: Settings)
    requires history != [] && !DecidesGrant(history, |history| - 1, user, hash, s) && i < |history| - 1
    ensures LatestIssues(history[..|history| - 1], i, user, token, now, hash, s)
         == LatestIssues(history, i, user, token, now, hash, s)
  {
    var n := |history| - 1;
    forall j | 0 <= j < n
      ensures DecidesGrant(history[..n], j, user, hash, s) == DecidesGrant(history, j, user, hash, s)
    {
      PrefixDecides(history, n, j, user, hash, s);
    }
  }

  /** A live grant is exactly one whose step-up is its user's latest grant event. */
  lemma {:induction false} ResolveIsLatestStepUp(history: seq<Event>, user: User, token: string, now: int,
      hash: Hash, s: Settings)
    requires Injective(hash)
    ensures FindActive(Replay(history, hash, s), user, token, now, hash).Some?
       <==> exists i :: 0 <= i < |history| && LatestIssues(history, i, user, token, now, hash, s)
  {
    if history != [] {
      var n := |history| - 1;
      if DecidesGrant(history, n, user, hash, s) {
        DecidedByLast(history, user, token, now, hash, s);
      } else {
        ResolveIsLatestStepUp(history[..n], user, token, now, hash, s);
        UndecidedKeepsGrant(history, user, hash, s);
        forall i | 0 <= i < n
          ensures LatestIssues(history[..n], i, user, token, now, hash, s) == LatestIssues(history, i, user, token,
              now, hash, s)
        {
          UndecidedKeepsLatest(history, i, user, token, now, hash, s);
        }
      }
    }
  }

  lemma UndecidedKeepsGrant(history: seq<Event>, user: User, hash: Hash, s: Settings)
    requires history != [] && !DecidesGrant(history, |history| - 1, user, hash, s)
    ensures Get(Replay(history, hash, s).grants, user) == Get(Replay(history[..|history| - 1], hash, s).grants, user)
  {
  }

  /** A denied step-up of `user`: the only request that consumes an attempt. */
  predicate Fails(t: Tables, e: Event, user: User, s: Settings) {
    e.StepUp? && e.request.user == user && StepUpOutcome(t, e.request, s).Denied?
  }

  predicate Succeeds(t: Tables, e: Event, user: User, s: Settings) {
    e.StepUp? && e.request.user == user && StepUpOutcome(t, e.request, s).Granted?
  }

  function Failures(t: Tables, es: seq<Event>, user: User, from: int, to: int, hash: Hash, s: Settings): nat
    decreases |es|
  {
    if es == [] then 0
    else (if Fails(t, es[0], user, s) && from <= es[0].request.now < to then 1 else 0)
         + Failures(Apply(t, es[0], hash, s), es[1..], user, from, to, hash, s)
  }

  predicate NoSuccess(t: Tables, es: seq<Event>, user: User, from: int, to: int, hash: Hash, s: Settings)
    decreases |es|
  {
    es == [] ||
    (!(Succeeds(t, es[0], user, s) && from <= es[0].request.now < to)
     && NoSuccess(Apply(t, es[0], hash, s), es[1..], user, from, to, hash, s))
  }

  /** Step-ups one at a time, on a clock that never goes back. */
  predicate Sequential(es: seq<Event>) {
    forall i, j :: 0 <= i < j < |es| && es[i].StepUp? && es[j].StepUp? ==> es[i].request.now <= es[j].request.now
  }

  lemma {:induction false} NoneAfter(t: Tables, es: seq<Event>, user: User, from: int, to: int, hash: Hash, s: Settings)
    requires forall i :: 0 <= i < |es| && es[i].StepUp? ==> es[i].request.now >= to
    ensures Failures(t, es, user, from, to, hash, s) == 0
    decreases |es|
  {
    if es != [] {
      NoneAfter(Apply(t, es[0], hash, s), es[1..], user, from, to, hash, s);
    }
  }

  lemma RowAfter(t: Tables, e: Event, user: User, hash: Hash, s: Settings)
    ensures Get(Apply(t, e, hash, s).lockouts, user)
         == if Fails(t, e, user, s) then Some(Bump(Get(t.lockouts, user), e.request.now, s.policy))
            else if Succeeds(t, e, user, s) then None
            else Get(t.lockouts, user)
  {
  }

  lemma NextIsBump(row: Option<Attempt>, now: int, p: Policy)
    ensures Next(row, now, p, false) == Bump(row, now, p)
  {
  }

  /** The denials a history records against `user` in `[from, to)` are failures of that one row, in order. */
  lemma {:induction false} FailuresAreRecordable(t: Tables, es: seq<Event>, user: User, now: int, from: int, to: int,
      hash: Hash, s: Settings) returns (times: seq<int>)
    requires s.policy.Valid() && RowOk(Get(t.lockouts, user), s.policy)
    requires Sequential(es) && NoSuccess(t, es, user, from, to, hash, s)
    requires forall i :: 0 <= i < |es| && es[i].StepUp? ==> now <= es[i].request.now && from <= es[i].request.now
    ensures |times| == Failures(t, es, user, from, to, hash, s)
    ensures Recordable(Get(t.lockouts, user), times, s.policy, false)
    ensures InsideInOrder(times, from, to) && forall i :: 0 <= i < |times| ==> now <= times[i]
    decreases |es|
  {
    hide Next, RowOk, Apply, Bump;
    if es == [] || (es[0].StepUp? && es[0].request.now >= to) {
      NoneAfter(t, es, user, from, to, hash, s);
      return [];
    }
    var e, row := es[0], Get(t.lockouts, user);
    RowAfter(t, e, user, hash, s);
    if Fails(t, e, user, s) {
      NextIsCounted(row, e.request.now, s.policy, false);
      NextIsBump(row, e.request.now, s.policy);
      var rest := FailuresAreRecordable(Apply(t, e, hash, s), es[1..], user, e.request.now, from, to, hash, s);
      times := [e.request.now] + rest;
      assert times[1..] == rest;
    } else {
      times := FailuresAreRecordable(Apply(t, e, hash, s), es[1..], user, now, from, to, hash, s);
    }
  }

  /** From any well-formed row, `user` is denied at most `n` times in an interval that holds none of its successes. */
  ghost predicate HistoriesKeepAtMost(user: User, from: int, to: int, hash: Hash, s: Settings, n: nat) {
    forall t: Tables, es: seq<Event> ::
      RowOk(Get(t.lockouts, user), s.policy) && Sequential(es) && NoSuccess(t, es, user, from, to, hash, s)
      ==> Failures(t, es, user, from, to, hash, s) <= n
  }

  lemma {:induction false} HistoryKeepsAtMost(t: Tables, es: seq<Event>, user: User, from: int, to: int, hash: Hash,
      s: Settings, n: nat)
    requires s.policy.Valid() && RowOk(Get(t.lockouts, user), s.policy) && KeepsAtMost(from, to, s.policy, false, n)
    requires Sequential(es) && NoSuccess(t, es, user, from, to, hash, s)
    ensures Failures(t, es, user, from, to, hash, s) <= n
    decreases |es|
  {
    hide Apply, Bump, RowOk;
    if es != [] {
      var e := es[0];
      if !e.StepUp? || e.request.now < from {
        RowAfter(t, e, user, hash, s);
        RowStaysOk(t, e, user, hash, s);
        HistoryKeepsAtMost(Apply(t, e, hash, s), es[1..], user, from, to, hash, s, n);
      } else {
        var times := FailuresAreRecordable(t, es, user, e.request.now, from, to, hash, s);
      }
    }
  }

  lemma RowStaysOk(t: Tables, e: Event, user: User, hash: Hash, s: Settings)
    requires s.policy.Valid() && RowOk(Get(t.lockouts, user), s.policy)
    ensures RowOk(Get(Apply(t, e, hash, s).lockouts, user), s.policy)
  {
    RowAfter(t, e, user, hash, s);
    BumpOk(Get(t.lockouts, user), if e.StepUp? then e.request.now else 0, s.policy);
    hide Apply, Bump;
  }

  /** A wrong code for the user's one factor at `time`. */
  function Attack(user: User, time: int): Event {
    StepUp(Request(user, time, ["totp"], None, _ => false, "", ""))
  }

  function Attacks(user: User, times: seq<int>): (es: seq<Event>)
    ensures |es| == |times| && forall j :: 0 <= j < |es| ==> es[j] == Attack(user, times[j])
  {
    seq(|times|, i requires 0 <= i < |times| => Attack(user, times[i]))
  }

  /** Every sequence of failures the row can take is the denials of some history. */
  lemma {:induction false} AttacksFail(t: Tables, user: User, times: seq<int>, from: int, to: int, hash: Hash,
      s: Settings)
    requires s.policy.Valid() && InsideInOrder(times, from, to)
    requires Recordable(Get(t.lockouts, user), times, s.policy, false)
    ensures NoSuccess(t, Attacks(user, times), user, from, to, hash, s)
    ensures Failures(t, Attacks(user, times), user, from, to, hash, s) == |times|
    decreases |times|
  {
    hide Next, Bump, Apply;
    if times != [] {
      var e := Attack(user, times[0]);
      assert Fails(t, e, user, s);
      RowAfter(t, e, user, hash, s);
      NextIsBump(Get(t.lockouts, user), times[0], s.policy);
      assert Attacks(user, times)[1..] == Attacks(user, times[1..]);
      AttacksFail(Apply(t, e, hash, s), user, times[1..], from, to, hash, s);
    }
  }

  /** Revocations, tombstones and other users neither add to nor take from what one row allows. */
  lemma HistoriesAreRows(user: User, from: int, to: int, hash: Hash, s: Settings, n: nat)
    requires s.policy.Valid()
    ensures HistoriesKeepAtMost(user, from, to, hash, s, n) <==> KeepsAtMost(from, to, s.policy, false, n)
  {
    hide RowOk, Apply;
    if KeepsAtMost(from, to, s.policy, false, n) {
      forall t: Tables, es: seq<Event> | RowOk(Get(t.lockouts, user), s.policy) && Sequential(es)
          && NoSuccess(t, es, user, from, to, hash, s)
        ensures Failures(t, es, user, from, to, hash, s) <= n
      {
        HistoryKeepsAtMost(t, es, user, from, to, hash, s, n);
      }
    } else {
      var row: Option<Attempt>, times: seq<int> :| RowOk(row, s.policy) && InsideInOrder(times, from, to)
        && Recordable(row, times, s.policy, false) && |times| > n;
      var t := Tables(map[], if row.Some? then map[user := row.value] else map[]);
      assert Get(t.lockouts, user) == row;
      AttacksFail(t, user, times, from, to, hash, s);
      assert Sequential(Attacks(user, times));
    }
  }

  /** The tight sliding-window bound of step-up, which never sweeps, holds of exactly the `Short` intervals. */
  lemma SlidingWindowBound(user: User, from: int, to: int, hash: Hash, s: Settings)
    requires s.policy.Valid()
    ensures HistoriesKeepAtMost(user, from, to, hash, s, Bound(s.policy)) <==> Short(from, to, s.policy, false)
  {
    hide HistoriesKeepAtMost, KeepsAtMost;
    HistoriesAreRows(user, from, to, hash, s, Bound(s.policy));
    BoundHoldsExactlyWhenShort(from, to, s.policy, false);
  }

  /** Of all intervals no longer than the two settings, it holds with `2 * max - 1` for exactly the `Sound` settings. */
  lemma PlainWindowBound(user: User, hash: Hash, s: Settings)
    requires s.policy.Valid()
    ensures (forall from: int, to: int :: to - from <= s.policy.window && to - from <= s.policy.lockout ==>
               HistoriesKeepAtMost(user, from, to, hash, s, PlainBound(s.policy)))
       <==> Sound(s.policy, false)
  {
    hide HistoriesKeepAtMost, KeepsAtMost, Sound;
    forall from: int, to: int
      ensures HistoriesKeepAtMost(user, from, to, hash, s, PlainBound(s.policy))
         <==> KeepsAtMost(from, to, s.policy, false, PlainBound(s.policy))
    {
      HistoriesAreRows(user, from, to, hash, s, PlainBound(s.policy));
    }
    PlainBoundHoldsExactlyWhenSound(s.policy, false);
  }

  // ----- what one step-up answers, and what a success forgets -----

  /** A request is answered by the first of its obstacles: a lock still running, no single factor, a wrong code. */
  lemma StepUpAnswers(t: Tables, q: Request, s: Settings)
    ensures var locked := q.user in t.lockouts && t.lockouts[q.user].lockedUntil.Some?
                && t.lockouts[q.user].lockedUntil.value > q.now;
            var named := q.factor.Some? && q.factor.value != "";
            var chosen := if named then q.factor else if q.factors != [] then Some(q.factors[0]) else None;
            var usable := if named then q.factor.value in q.factors else |q.factors| == 1;
            match StepUpOutcome(t, q, s)
            case LockedOut(wait) =>
              locked && wait > 0 && forall later ::
                StepUpOutcome(t, q.(now := later), s).LockedOut? <==> later < q.now + wait
            case FactorUnavailable => !locked && !usable
            case Denied => !locked && usable && !q.verifies(chosen.value)
            case Granted(verifier, expiresAt) =>
              && !locked && usable && verifier == chosen.value && q.verifies(verifier)
              && expiresAt <= q.now + s.ttl < expiresAt + 1000
  {
  }

  /** A granted step-up stores just this grant, and the token it was given finds it until its lifetime ends. */
  lemma GrantIsStored(t: Tables, q: Request, hash: Hash, s: Settings)
    requires StepUpOutcome(t, q, s).Granted?
    ensures var after, end := SteppedUp(t, q, hash, s), StepUpOutcome(t, q, s).expiresAt;
            && after.grants.Keys == t.grants.Keys + {q.user}
            && (forall u :: u in t.grants && u != q.user ==> after.grants[u] == t.grants[u])
            && after.grants[q.user].verifier == StepUpOutcome(t, q, s).verifier
            && after.grants[q.user].issuedAt == Trunc(q.now) && after.grants[q.user].expiresAt == end
            && (forall later :: FindActive(after, q.user, q.token, later, hash).Some? <==> Trunc(later) < end)
  {
  }

  /** The tables after a whole history from `t`. */
  function Run(t: Tables, es: seq<Event>, hash: Hash, s: Settings): Tables
    decreases |es|
  {
    if es == [] then t else Run(Apply(t, es[0], hash, s), es[1..], hash, s)
  }

  lemma {:induction false} AttacksLeave(t: Tables, user: User, times: seq<int>, hash: Hash, s: Settings)
    requires s.policy.Valid() && Recordable(Get(t.lockouts, user), times, s.policy, false)
    ensures Get(Run(t, Attacks(user, times), hash, s).lockouts, user)
         == After(Get(t.lockouts, user), times, s.policy, false)
    decreases |times|
  {
    hide Next, Bump, Apply;
    if times != [] {
      var e := Attack(user, times[0]);
      assert Fails(t, e, user, s);
      RowAfter(t, e, user, hash, s);
      NextIsBump(Get(t.lockouts, user), times[0], s.policy);
      assert Attacks(user, times)[1..] == Attacks(user, times[1..]);
      AttacksLeave(Apply(t, e, hash, s), user, times[1..], hash, s);
    }
  }

  lemma CleanUserTakesMax(t: Tables, user: User, times: seq<int>, hash: Hash, s: Settings)
    requires s.policy.Valid() && Get(t.lockouts, user) == None && 1 <= |times| <= s.policy.max
    requires InsideInOrder(times, times[0], Trunc(times[0]) + Life(s.policy, false))
    ensures Failures(t, Attacks(user, times), user, times[0], Trunc(times[0]) + Life(s.policy, false), hash, s)
         == |times|
    ensures CountsJust(Get(Run(t, Attacks(user, times), hash, s).lockouts, user), times, s.policy)
  {
    hide *;
    CleanBucketTakesMax(times, s.policy, false);
    AttacksFail(t, user, times, times[0], Trunc(times[0]) + Life(s.policy, false), hash, s);
    AttacksLeave(t, user, times, hash, s);
  }

  /** A success forgets every denial before it: `max` more fit one window, and only the last sets a lock. */
  lemma SuccessForgetsFailures(t: Tables, q: Request, times: seq<int>, hash: Hash, s: Settings)
    requires s.policy.Valid() && StepUpOutcome(t, q, s).Granted? && 1 <= |times| <= s.policy.max
    requires InsideInOrder(times, times[0], Trunc(times[0]) + Life(s.policy, false))
    ensures var after := Apply(t, StepUp(q), hash, s);
            && Failures(after, Attacks(q.user, times), q.user, times[0],
                        Trunc(times[0]) + Life(s.policy, false), hash, s)
               == |times|
            && CountsJust(Get(Run(after, Attacks(q.user, times), hash, s).lockouts, q.user), times, s.policy)
  {
    RowAfter(t, StepUp(q), q.user, hash, s);
    assert Get(Apply(t, StepUp(q), hash, s).lockouts, q.user) == None;
    hide *;
    CleanUserTakesMax(Apply(t, StepUp(q), hash, s), q.user, times, hash, s);
  }
}
