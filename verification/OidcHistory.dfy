/** What every history of login starts, completions and account changes keeps. */
module OidcHistory {
  import opened Wrappers
  import opened Clock
  import opened RbacTables
  import opened OidcLogin
  import RoleSync

  datatype Event =
    | Start(now: int, state: string, nonce: string, verifier: string, discovered: bool)
    | Complete(now: int, state: string, exchange: Exchange, freshId: Id)
    | AddUser(id: Id, username: string)
    | SetActive(user: Id, active: bool)
    | Tombstone(user: Id)

  /** `UserRepository.create` with its local identity row, or a duplicate of some key. */
  function UserAdded(s: Store, id: Id, username: string): Store {
    var key := Identity("local", username);
    if id in s.users || key in s.identities || (exists u :: u in s.users && s.users[u].username == username) then s
    else s.(users := s.users[id := User(username, true, false)], identities := s.identities[key := id])
  }

  function ActiveSet(s: Store, user: Id, active: bool): Store {
    if user in s.users && !s.users[user].deleted
        then s.(users := s.users[user := s.users[user].(active := active)]) else s
  }

  function Tombstoned(s: Store, user: Id): Store {
    if user in s.users && !s.users[user].deleted then
      s.(users := s.users[user := s.users[user].(active := false, deleted := true)],
         assignments := map a | a in s.assignments && a.subject != OfUser(user) :: s.assignments[a])
    else s
  }

  ghost function Apply(s: Store, cfg: Settings, e: Event): Store {
    match e
    case Start(now, state, nonce, verifier, discovered) => Started(s, cfg, now, state, nonce, verifier, discovered)
    case Complete(now, state, exchange, freshId) => Completed(s, cfg, now, state, exchange, freshId).0
    case AddUser(id, username) => UserAdded(s, id, username)
    case SetActive(user, active) => ActiveSet(s, user, active)
    case Tombstone(user) => Tombstoned(s, user)
  }

  ghost function Replay(s: Store, cfg: Settings, history: seq<Event>): Store {
    if history == [] then s
    else Apply(Replay(s, cfg, history[..|history| - 1]), cfg, history[|history| - 1])
  }

  ghost function OutcomeAt(s: Store, cfg: Settings, history: seq<Event>, i: nat): Outcome
    requires i < |history| && history[i].Complete?
  {
    var e := history[i];
    Completed(Replay(s, cfg, history[..i]), cfg, e.now, e.state, e.exchange, e.freshId).1
  }

  /** Event `i` redeems a live state and gets a usable token for `subject`. */
  ghost predicate Proves(s: Store, cfg: Settings, history: seq<Event>, i: nat, subject: string) {
    i < |history| && history[i].Complete? &&
    var before := Replay(s, cfg, history[..i]);
    Takes(before, history[i].state, history[i].now) &&
    var token := history[i].exchange(before.states[history[i].state].nonce, before.states[history[i].state].verifier);
    token.Some? && token.value.subject == subject != ""
  }

  /** Nothing a failed completion does reaches an account: only the state row is gone. */
  lemma FailureChangesNoAccount(s: Store, cfg: Settings, now: int, state: string, exchange: Exchange, freshId: Id)
    ensures var (after, outcome) := Completed(s, cfg, now, state, exchange, freshId);
            && after.states == s.states - {state}
            && (!outcome.LoggedIn? ==>
                  after.users == s.users && after.identities == s.identities && after.assignments == s.assignments)
            && (outcome.LoggedIn? ==> Usable(s, outcome.user) || outcome.user !in s.users)
            && (outcome.LoggedIn? ==> Usable(after, outcome.user))
            && (!Takes(s, state, now) ==> outcome == StateInvalid)
  {
  }

  /**
   * A login refreshes the user's roles from this login's claims: the issuer's own rows become
   * the mapped roles no other source holds, and every other row stays.
   */
  lemma LoginRefreshesRoles(s: Store, cfg: Settings, now: int, state: string, exchange: Exchange, freshId: Id)
    requires Completed(s, cfg, now, state, exchange, freshId).1.LoggedIn?
    ensures var (after, outcome) := Completed(s, cfg, now, state, exchange, freshId);
            var token := exchange(s.states[state].nonce, s.states[state].verifier);
            && token.Some?
            && var desired := RoleSync.Desired(cfg.mappings, cfg.issuer, token.value.claims);
               && RoleSync.Synced(s.assignments, after.assignments, outcome.user, cfg.issuer, desired)
               && RoleSync.Sourced(after.assignments, outcome.user, cfg.issuer)
                  == set role | role in desired && RoleSync.Owned(s.assignments,
                      Assignment(OfUser(outcome.user), role), outcome.user, cfg.issuer)
  {
    var (after, outcome) := Completed(s, cfg, now, state, exchange, freshId);
    var token := exchange(s.states[state].nonce, s.states[state].verifier).value;
    var taken := s.(states := s.states - {state});
    assert Provisioned(taken, cfg.issuer, token, freshId).0.assignments == s.assignments by {
      hide RoleSync.SyncTo, RoleSync.Desired, UserNamed, DeriveUsername;
    }
    hide Provisioned, RoleSync.Synced, RoleSync.Sourced, RoleSync.Owned;
    RoleSync.SyncIsIdempotent(s.assignments, after.assignments, after.assignments, outcome.user, cfg.issuer,
                              RoleSync.Desired(cfg.mappings, cfg.issuer, token.claims));
  }

  /** Links are only ever added, and users are never removed or revived. */
  ghost predicate Grows(s: Store, t: Store) {
    && (forall k :: k in s.identities ==> k in t.identities && t.identities[k] == s.identities[k])
    && (forall u :: u in s.users ==>
          && u in t.users && t.users[u].username == s.users[u].username
          && (s.users[u].deleted ==> t.users[u].deleted))
  }

  lemma ProvisionGrows(s: Store, issuer: string, token: IdToken, freshId: Id)
    ensures Grows(s, Provisioned(s, issuer, token, freshId).0)
  {
    hide DeriveUsername, UserNamed;
  }

  lemma CompleteGrows(s: Store, cfg: Settings, now: int, state: string, exchange: Exchange, freshId: Id)
    ensures Grows(s, Completed(s, cfg, now, state, exchange, freshId).0)
  {
    hide RoleSync.SyncTo, RoleSync.Desired, Provisioned;
    var taken := s.(states := s.states - {state});
    if Takes(s, state, now) {
      var token := exchange(s.states[state].nonce, s.states[state].verifier);
      if token.Some? {
        ProvisionGrows(taken, cfg.issuer, token.value, freshId);
      }
    }
  }

  lemma ApplyGrows(s: Store, cfg: Settings, e: Event)
    ensures Grows(s, Apply(s, cfg, e))
  {
    if e.Complete? {
      CompleteGrows(s, cfg, e.now, e.state, e.exchange, e.freshId);
    }
    hide Completed;
  }

  lemma {:induction false} ReplayGrows(s: Store, cfg: Settings, history: seq<Event>, i: nat)
    requires i <= |history|
    ensures Grows(Replay(s, cfg, history[..i]), Replay(s, cfg, history))
    decreases |history| - i
  {
    assert history[..|history|] == history;
    if i < |history| {
      ApplyGrows(Replay(s, cfg, history[..i]), cfg, history[i]);
      assert history[..i + 1][..i] == history[..i];
      ReplayGrows(s, cfg, history, i + 1);
    }
  }

  lemma ProvisionLinks(s: Store, issuer: string, token: IdToken, freshId: Id)
    requires Provisioned(s, issuer, token, freshId).1.LoggedIn?
    ensures var (after, outcome), key := Provisioned(s, issuer, token, freshId), Identity(issuer, token.subject);
            key in after.identities && after.identities[key] == outcome.user
  {
    hide DeriveUsername, UserNamed, Usable;
  }

  /** A login leaves its subject linked to the user it returned. */
  lemma LoginLinks(s: Store, cfg: Settings, history: seq<Event>, i: nat, subject: string)
    requires Proves(s, cfg, history, i, subject) && OutcomeAt(s, cfg, history, i).LoggedIn?
    ensures var key, after := Identity(cfg.issuer, subject), Replay(s, cfg, history[..i + 1]);
            key in after.identities && after.identities[key] == OutcomeAt(s, cfg, history, i).user
  {
    var before, e := Replay(s, cfg, history[..i]), history[i];
    assert history[..i + 1][..i] == history[..i];
    assert Replay(s, cfg, history[..i + 1]) == Apply(before, cfg, e);
    var taken := before.(states := before.states - {e.state});
    var token := e.exchange(before.states[e.state].nonce, before.states[e.state].verifier).value;
    hide Provisioned, RoleSync.SyncTo, RoleSync.Desired, Replay;
    ProvisionLinks(taken, cfg.issuer, token, e.freshId);
  }

  /** Once a subject has logged in as a user, every later login of that subject is that user's, or is refused. */
  lemma LinkIsStable(s: Store, cfg: Settings, history: seq<Event>, i: nat, j: nat, subject: string)
    requires i < j && Proves(s, cfg, history, i, subject) && Proves(s, cfg, history, j, subject)
    requires OutcomeAt(s, cfg, history, i).LoggedIn?
    ensures var u := OutcomeAt(s, cfg, history, i).user;
            var now := Replay(s, cfg, history[..j]);
            && u in now.users
            && OutcomeAt(s, cfg, history, j) == if Usable(now, u) then LoggedIn(u) else ProvisioningRefused
  {
    LoginLinks(s, cfg, history, i, subject);
    var before := history[..j];
    assert before[..i + 1] == history[..i + 1];
    ReplayGrows(s, cfg, before, i + 1);
    var e := history[i];
    FailureChangesNoAccount(Replay(s, cfg, history[..i]), cfg, e.now, e.state, e.exchange, e.freshId);
    assert history[..i + 1][..i] == history[..i];
  }

  /** A user once tombstoned is never logged in again, whoever's subject is linked to it. */
  lemma TombstoneIsFinal(s: Store, cfg: Settings, history: seq<Event>, i: nat, j: nat)
    requires i <= j < |history| && history[j].Complete? && OutcomeAt(s, cfg, history, j).LoggedIn?
    ensures var u := OutcomeAt(s, cfg, history, j).user;
            var then_ := Replay(s, cfg, history[..i]);
            u in then_.users ==> !then_.users[u].deleted
  {
    var e := history[j];
    FailureChangesNoAccount(Replay(s, cfg, history[..j]), cfg, e.now, e.state, e.exchange, e.freshId);
    assert history[..j][..i] == history[..i];
    ReplayGrows(s, cfg, history[..j], i);
  }

  /** The bootstrap user exists and no subject of the issuer is linked to it. */
  ghost predicate BootstrapApart(s: Store, issuer: string) {
    && (forall k :: k in s.identities ==> s.identities[k] in s.users)
    && (forall k :: k in s.identities && k.provider == issuer ==> !IsBootstrapIdentity(s, s.identities[k]))
  }

  lemma ProvisionKeepsBootstrapApart(s: Store, issuer: string, token: IdToken, freshId: Id)
    requires BootstrapApart(s, issuer) && BOOTSTRAP in s.identities && issuer != BOOTSTRAP.provider
    ensures var (after, outcome) := Provisioned(s, issuer, token, freshId);
            && BootstrapApart(after, issuer) && BOOTSTRAP in after.identities
            && after.identities[BOOTSTRAP] == s.identities[BOOTSTRAP]
            && (outcome.LoggedIn? ==> outcome.user != s.identities[BOOTSTRAP])
  {
    hide DeriveUsername, UserNamed;
  }

  lemma CompleteKeepsBootstrapApart(s: Store, cfg: Settings, now: int, state: string, exchange: Exchange, freshId: Id)
    requires BootstrapApart(s, cfg.issuer) && BOOTSTRAP in s.identities
    requires cfg.issuer != BOOTSTRAP.provider
    ensures var (after, outcome) := Completed(s, cfg, now, state, exchange, freshId);
            && BootstrapApart(after, cfg.issuer) && BOOTSTRAP in after.identities
            && after.identities[BOOTSTRAP] == s.identities[BOOTSTRAP]
            && (outcome.LoggedIn? ==> outcome.user != s.identities[BOOTSTRAP])
  {
    hide RoleSync.SyncTo, RoleSync.Desired, Provisioned;
    var taken := s.(states := s.states - {state});
    if Takes(s, state, now) {
      var token := exchange(s.states[state].nonce, s.states[state].verifier);
      if token.Some? {
        ProvisionKeepsBootstrapApart(taken, cfg.issuer, token.value, freshId);
      }
    }
  }

  lemma ApplyKeepsBootstrapApart(s: Store, cfg: Settings, e: Event)
    requires BootstrapApart(s, cfg.issuer) && BOOTSTRAP in s.identities
    requires cfg.issuer != BOOTSTRAP.provider
    ensures BootstrapApart(Apply(s, cfg, e), cfg.issuer) && BOOTSTRAP in Apply(s, cfg, e).identities
    ensures Apply(s, cfg, e).identities[BOOTSTRAP] == s.identities[BOOTSTRAP]
  {
    if e.Complete? {
      CompleteKeepsBootstrapApart(s, cfg, e.now, e.state, e.exchange, e.freshId);
    }
    hide Completed;
  }

  lemma {:induction false} ReplayKeepsBootstrapApart(s: Store, cfg: Settings, history: seq<Event>)
    requires BootstrapApart(s, cfg.issuer) && BOOTSTRAP in s.identities && cfg.issuer != BOOTSTRAP.provider
    ensures var now := Replay(s, cfg, history);
            && BootstrapApart(now, cfg.issuer) && BOOTSTRAP in now.identities
                && now.identities[BOOTSTRAP] == s.identities[BOOTSTRAP]
  {
    hide BootstrapApart, Apply;
    if history != [] {
      var n := |history| - 1;
      ReplayKeepsBootstrapApart(s, cfg, history[..n]);
      ApplyKeepsBootstrapApart(Replay(s, cfg, history[..n]), cfg, history[n]);
    }
  }

  /** No history of logins ever returns the bootstrap user. */
  lemma BootstrapNeverLogsIn(s: Store, cfg: Settings, history: seq<Event>, i: nat)
    requires BootstrapApart(s, cfg.issuer) && BOOTSTRAP in s.identities && cfg.issuer != BOOTSTRAP.provider
    requires i < |history| && history[i].Complete?
    ensures OutcomeAt(s, cfg, history, i) != LoggedIn(s.identities[BOOTSTRAP])
  {
    hide BootstrapApart, Apply, Completed, Replay;
    var e := history[i];
    ReplayKeepsBootstrapApart(s, cfg, history[..i]);
    CompleteKeepsBootstrapApart(Replay(s, cfg, history[..i]), cfg, e.now, e.state, e.exchange, e.freshId);
  }

  /** Event `i` stores a fresh row for `state`. */
  ghost predicate Opens(s: Store, cfg: Settings, history: seq<Event>, i: nat, state: string) {
    i < |history| && history[i].Start? && history[i].state == state && history[i].discovered
    && state !in Swept(Replay(s, cfg, history[..i]), history[i].now).states
  }

  ghost predicate Redeems(s: Store, cfg: Settings, history: seq<Event>, i: nat, state: string) {
    i < |history| && history[i].Complete? && history[i].state == state
    && Takes(Replay(s, cfg, history[..i]), state, history[i].now)
  }

  predicate Untouched(history: seq<Event>, i: nat, state: string) {
    forall k :: i < k < |history| ==> !(history[k].Complete? && history[k].state == state)
  }

  lemma StillOpened(s: Store, cfg: Settings, history: seq<Event>, i: nat, state: string)
    requires history != [] && !(history[|history| - 1].Complete? && history[|history| - 1].state == state)
    requires Opens(s, cfg, history[..|history| - 1], i, state) && Untouched(history[..|history| - 1], i, state)
    ensures Opens(s, cfg, history, i, state) && Untouched(history, i, state)
        && history[i] == history[..|history| - 1][i]
  {
    hide Replay;
    var front := history[..|history| - 1];
    assert front[..i] == history[..i];
    assert forall k :: 0 <= k < |front| ==> front[k] == history[k];
  }

  /** Only starts and completions touch the stored states. */
  lemma StatesAfter(s: Store, cfg: Settings, e: Event)
    ensures e.Complete? ==> Apply(s, cfg, e).states == s.states - {e.state}
    ensures e.Start? ==> Apply(s, cfg, e) == Started(s, cfg, e.now, e.state, e.nonce, e.verifier, e.discovered)
    ensures !e.Complete? && !e.Start? ==> Apply(s, cfg, e).states == s.states
  {
    if e.Complete? {
      FailureChangesNoAccount(s, cfg, e.now, e.state, e.exchange, e.freshId);
    }
    hide Completed;
  }

  /** Every stored row was put there by a start, and no completion has named it since. */
  lemma {:induction false} RowHasStart(s: Store, cfg: Settings, history: seq<Event>, state: string) returns (i: nat)
    requires s.states == map[] && state in Replay(s, cfg, history).states
    ensures Opens(s, cfg, history, i, state) && Untouched(history, i, state)
    ensures var e := history[i];
            Replay(s, cfg, history).states[state] == LoginState(e.nonce, e.verifier, Trunc(e.now + cfg.stateTtl))
  {
    var n := |history| - 1;
    var before, e := Replay(s, cfg, history[..n]), history[n];
    StatesAfter(before, cfg, e);
    hide Apply, Untouched;
    if Opens(s, cfg, history, n, state) {
      i := n;
    } else {
      assert state in before.states && before.states[state] == Replay(s, cfg, history).states[state];
      i := RowHasStart(s, cfg, history[..n], state);
      StillOpened(s, cfg, history, i, state);
    }
  }

  /**
   * From an empty table, a state is redeemed only after a start put it there, before that
   * start's expiry, with that start's nonce and verifier, and as the first completion to name it.
   */
  lemma RedemptionHasStart(s: Store, cfg: Settings, history: seq<Event>, n: nat, state: string) returns (i: nat)
    requires s.states == map[] && Redeems(s, cfg, history, n, state)
    ensures i < n && Opens(s, cfg, history, i, state)
    ensures Trunc(history[n].now) < Trunc(history[i].now + cfg.stateTtl)
    ensures var row := Replay(s, cfg, history[..n]).states[state];
            row.nonce == history[i].nonce && row.verifier == history[i].verifier
    ensures forall m :: i < m < n ==> !(history[m].Complete? && history[m].state == state)
  {
    hide Replay, Swept;
    i := RowHasStart(s, cfg, history[..n], state);
    assert history[..n][..i] == history[..i];
    assert forall k :: 0 <= k < n ==> history[..n][k] == history[k];
  }

  /** So a state that is started at most once is redeemed at most once. */
  lemma RedeemedOnce(s: Store, cfg: Settings, history: seq<Event>, m: nat, n: nat, state: string)
    requires s.states == map[] && Redeems(s, cfg, history, m, state) && Redeems(s, cfg, history, n, state)
    requires forall i, j :: Opens(s, cfg, history, i, state) && Opens(s, cfg, history, j, state) ==> i == j
    ensures m == n
  {
    var i := RedemptionHasStart(s, cfg, history, m, state);
    var j := RedemptionHasStart(s, cfg, history, n, state);
    assert i == j;
  }
}
