/** `ansina.auth.oidc_login`: single-use login states and stable identity links. */
module OidcLogin {
  import opened Wrappers
  import opened Clock
  import opened RbacTables
  import RoleSync

  /** One `oidc_login_states` row. */
  datatype LoginState = LoginState(nonce: string, verifier: string, expiresAt: int)

  datatype Identity = Identity(provider: string, subject: string)

  /** What a valid ID token says. */
  datatype IdToken = IdToken(subject: string, claims: RoleSync.Claims)

  /** The provider's answer to one code, given the login's own nonce and code verifier. */
  type Exchange = (string, string) -> Option<IdToken>

  datatype Store = Store(
    states: map<string, LoginState>,
    users: map<Id, User>,
    identities: map<Identity, Id>,
    assignments: RoleSync.Assignments)

  datatype Settings = Settings(issuer: string, stateTtl: int, mappings: set<RoleSync.Mapping>)

  datatype Outcome = LoggedIn(user: Id) | StateInvalid | TokenInvalid | ProvisioningRefused | Duplicate

  const BOOTSTRAP := Identity("local-bootstrap", "bootstrap-admin")

  predicate IsBootstrapIdentity(s: Store, user: Id) {
    BOOTSTRAP in s.identities && s.identities[BOOTSTRAP] == user
  }

  /** A claim that is a non-empty string. */
  function TextClaim(claims: RoleSync.Claims, key: string): Option<string> {
    if key in claims && claims[key].Text? && claims[key].text != "" then Some(claims[key].text) else None
  }

  function DeriveUsername(claims: RoleSync.Claims, subject: string): string {
    var preferred, email := TextClaim(claims, "preferred_username"), TextClaim(claims, "email");
    if preferred.Some? then preferred.value else if email.Some? then email.value else subject
  }

  predicate Usable(s: Store, user: Id) {
    user in s.users && s.users[user].active && !s.users[user].deleted
  }

  /** Usernames are unique. */
  ghost predicate UniqueUsernames(s: Store) {
    forall u, v :: u in s.users && v in s.users && s.users[u].username == s.users[v].username ==> u == v
  }

  datatype Provision = Refuse | Return(user: Id) | Link(user: Id) | Create(username: string)

  /** How `_provision_user` resolves a subject; `named` is the user with the derived username. */
  function Resolve(s: Store, issuer: string, token: IdToken, named: Option<Id>): Provision {
    var key := Identity(issuer, token.subject);
    if key in s.identities then
      if Usable(s, s.identities[key]) then Return(s.identities[key]) else Refuse
    else if named.Some? then
      if Usable(s, named.value) && !IsBootstrapIdentity(s, named.value) then Link(named.value) else Refuse
    else Create(DeriveUsername(token.claims, token.subject))
  }

  ghost predicate Names(s: Store, username: string, named: Option<Id>) {
    match named
    case Some(u) => u in s.users && s.users[u].username == username
    case None => forall u :: u in s.users ==> s.users[u].username != username
  }

  ghost function UserNamed(s: Store, username: string): (named: Option<Id>)
    ensures Names(s, username, named)
  {
    if u :| u in s.users && s.users[u].username == username then Some(u) else None
  }

  lemma OneName(s: Store, username: string, named: Option<Id>)
    requires UniqueUsernames(s) && Names(s, username, named)
    ensures named == UserNamed(s, username)
  {
  }

  /** The tables and the user after provisioning, or why it was refused. */
  ghost function Provisioned(s: Store, issuer: string, token: IdToken, freshId: Id): (Store, Outcome) {
    var key := Identity(issuer, token.subject);
    match Resolve(s, issuer, token, UserNamed(s, DeriveUsername(token.claims, token.subject)))
    case Refuse => (s, ProvisioningRefused)
    case Return(user) => (s, LoggedIn(user))
    case Link(user) => (s.(identities := s.identities[key := user]), LoggedIn(user))
    case Create(username) =>
      if freshId in s.users then (s, Duplicate)
      else (s.(users := s.users[freshId := User(username, true, false)], identities := s.identities[key := freshId]),
          LoggedIn(freshId))
  }

  ghost function LoggedInAs(s: Store, cfg: Settings, token: IdToken, freshId: Id): (Store, Outcome) {
    var (after, outcome) := Provisioned(s, cfg.issuer, token, freshId);
    if outcome.LoggedIn? then
      (after.(assignments := RoleSync.SyncTo(after.assignments, outcome.user, cfg.issuer,
                RoleSync.Desired(cfg.mappings, cfg.issuer, token.claims))), outcome)
    else (after, outcome)
  }

  /** `take`: the row goes either way; only an unexpired one counts. */
  predicate Takes(s: Store, state: string, now: int) {
    state in s.states && s.states[state].expiresAt > Trunc(now)
  }

  ghost function Completed(s: Store, cfg: Settings, now: int, state: string, exchange: Exchange,
      freshId: Id): (Store, Outcome) {
    var taken := s.(states := s.states - {state});
    if !Takes(s, state, now) then (taken, StateInvalid)
    else
      var token := exchange(s.states[state].nonce, s.states[state].verifier);
      if token.None? || token.value.subject == "" then (taken, TokenInvalid)
      else LoggedInAs(taken, cfg, token.value, freshId)
  }

  function Swept(s: Store, now: int): Store {
    s.(states := map k | k in s.states && s.states[k].expiresAt > Trunc(now) :: s.states[k])
  }

  function Started(s: Store, cfg: Settings, now: int, state: string, nonce: string, verifier: string,
      discovered: bool): Store {
    var swept := Swept(s, now);
    if !discovered || state in swept.states then swept
    else swept.(states := swept.states[state := LoginState(nonce, verifier, Trunc(now + cfg.stateTtl))])
  }

  class OidcLoginService {
    const settings: Settings
    const sync: RoleSync.RoleSync
    var states: map<string, LoginState>
    var users: map<Id, User>
    var identities: map<Identity, Id>

    ghost function State(): Store
      reads this, sync
    {
      Store(states, users, identities, sync.assignments)
    }

    /** Both services see one `users` table and one set of mappings. */
    ghost predicate Shares()
      reads this, sync
    {
      sync.users == users.Keys && sync.mappings == settings.mappings
    }

    constructor (settings: Settings, sync: RoleSync.RoleSync, states: map<string, LoginState>,
                 users: map<Id, User>, identities: map<Identity, Id>)
      requires sync.users == users.Keys && sync.mappings == settings.mappings
      ensures this.settings == settings && this.sync == sync && Shares()
      ensures State() == Store(states, users, identities, sync.assignments)
    {
      this.settings, this.sync, this.states, this.users, this.identities := settings, sync, states, users, identities;
    }

    /** Sweeps expired rows first, so even a failed start leaves none behind. */
    method StartLogin(now: int, state: string, nonce: string, verifier: string, discovered: bool)
        returns (started: bool)
      modifies this`states
      ensures State() == Started(old(State()), settings, now, state, nonce, verifier, discovered)
      ensures started <==> discovered && state !in Swept(old(State()), now).states
    {
      states := map k | k in states && states[k].expiresAt > Trunc(now) :: states[k];
      if !discovered || state in states {
        return false;
      }
      var expiresAt := Trunc(now + settings.stateTtl);
      states := states[state := LoginState(nonce, verifier, expiresAt)];
      return true;
    }

    method Take(state: string, now: int) returns (row: Option<LoginState>)
      modifies this`states
      ensures states == old(states) - {state}
      ensures row == if Takes(old(State()), state, now) then Some(old(states)[state]) else None
    {
      if state !in states {
        return None;
      }
      var found := states[state];
      states := states - {state};
      if found.expiresAt <= Trunc(now) {
        return None;
      }
      return Some(found);
    }

    method CompleteLogin(now: int, state: string, exchange: Exchange, freshId: Id) returns (r: Outcome)
      requires UniqueUsernames(State()) && Shares()
      modifies this`states, this`users, this`identities, sync
      ensures Shares()
      ensures (State(), r) == Completed(old(State()), settings, now, state, exchange, freshId)
    {
      var loginState := Take(state, now);
      if loginState.None? {
        return StateInvalid;
      }
      var token := exchange(loginState.value.nonce, loginState.value.verifier);
      if token.None? || token.value.subject == "" {
        return TokenInvalid;
      }
      r := ProvisionUser(token.value, freshId);
      if r.LoggedIn? {
        var unknown := sync.SyncMappedRoles(r.user, settings.issuer, token.value.claims);
      }
    }

    method ProvisionUser(token: IdToken, freshId: Id) returns (r: Outcome)
      requires UniqueUsernames(State()) && Shares()
      modifies this`users, this`identities, sync`users
      ensures Shares()
      ensures (State(), r) == Provisioned(old(State()), settings.issuer, token, freshId)
      ensures r.LoggedIn? ==> r.user in users
    {
      var key := Identity(settings.issuer, token.subject);
      if key in identities {
        var user := identities[key];
        if user !in users || users[user].deleted {
          return ProvisioningRefused;
        }
        if !users[user].active {
          return ProvisioningRefused;
        }
        return LoggedIn(user);
      }
      var username := DeriveUsername(token.claims, token.subject);
      var existing := set u | u in users && users[u].username == username;
      if existing != {} {
        var user :| user in existing;
        OneName(State(), username, Some(user));
        if users[user].deleted {
          return ProvisioningRefused;
        }
        if !users[user].active {
          return ProvisioningRefused;
        }
        if BOOTSTRAP in identities && identities[BOOTSTRAP] == user {
          return ProvisioningRefused;
        }
        identities := identities[key := user];
        return LoggedIn(user);
      }
      assert forall u :: u in users && users[u].username == username ==> u in existing;
      if freshId in users {
        return Duplicate;
      }
      users := users[freshId := User(username, true, false)];
      sync.users := sync.users + {freshId};
      identities := identities[key := freshId];
      return LoggedIn(freshId);
    }
  }
}
