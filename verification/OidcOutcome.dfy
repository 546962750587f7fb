/** Who a federated login logs in, under which name and with which roles, and when it does. */
module OidcOutcome {
  import opened Wrappers
  import opened Clock
  import opened RbacTables
  import opened OidcLogin
  import opened OidcHistory
  import RoleSync

  predicate HasText(claims: RoleSync.Claims, key: string) {
    key in claims && claims[key].Text? && claims[key].text != ""
  }

  /** The name the claims ask for: the preferred one, else the mail address, else the subject itself. */
  predicate AsksFor(token: IdToken, name: string) {
    if HasText(token.claims, "preferred_username") then token.claims["preferred_username"] == RoleSync.Text(name)
    else if HasText(token.claims, "email") then token.claims["email"] == RoleSync.Text(name)
    else name == token.subject
  }

  lemma OneNameAsked(token: IdToken, name: string)
    ensures AsksFor(token, name) <==> name == DeriveUsername(token.claims, token.subject)
  {
  }

  /** The token of a completion whose state is stored and not yet expired. */
  function TokenOf(s: Store, state: string, exchange: Exchange): Option<IdToken>
    requires state in s.states
  {
    exchange(s.states[state].nonce, s.states[state].verifier)
  }

  predicate Live(s: Store, state: string, now: int) {
    state in s.states && s.states[state].expiresAt > Trunc(now)
  }

  type Users = map<Id, User>

  type Identities = map<Identity, Id>

  predicate Sound(users: Users, user: Id) {
    user in users && users[user].active && !users[user].deleted
  }

  predicate Bootstraps(identities: Identities, user: Id) {
    BOOTSTRAP in identities && identities[BOOTSTRAP] == user
  }

  /** What becomes of a valid token: the linked user, the user of the asked name, or a new one of that name. */
  ghost predicate Settles(users: Users, identities: Identities, key: Identity, token: IdToken, freshId: Id,
      outcome: Outcome, users': Users, identities': Identities)
  {
    if key in identities then
      && users' == users && identities' == identities
      && outcome == if Sound(users, identities[key]) then LoggedIn(identities[key]) else ProvisioningRefused
    else if u :| u in users && AsksFor(token, users[u].username) then
      && users' == users
      && if Sound(users, u) && !Bootstraps(identities, u)
         then outcome == LoggedIn(u) && identities' == identities[key := u]
         else outcome == ProvisioningRefused && identities' == identities
    else if freshId in users then outcome == Duplicate && users' == users && identities' == identities
    else
      && outcome == LoggedIn(freshId) && identities' == identities[key := freshId]
      && users'.Keys == users.Keys + {freshId} && (forall u :: u in users ==> users'[u] == users[u])
      && AsksFor(token, users'[freshId].username) && Sound(users', freshId)
  }

  /** At most one user has the asked name: the one the lookup by the derived name finds. */
  lemma AskedUser(s: Store, token: IdToken, named: Option<Id>)
    requires UniqueUsernames(s) && named == UserNamed(s, DeriveUsername(token.claims, token.subject))
    ensures named.Some? ==> named.value in s.users && AsksFor(token, s.users[named.value].username)
    ensures forall u :: u in s.users && AsksFor(token, s.users[u].username) ==> named == Some(u)
  {
    var name := DeriveUsername(token.claims, token.subject);
    OneNameAsked(token, name);
    forall u | u in s.users && AsksFor(token, s.users[u].username) ensures named == Some(u) {
      OneNameAsked(token, s.users[u].username);
      OneName(s, name, Some(u));
    }
  }

  /** What provisioning does, with the user of the derived name spelled out. */
  lemma ProvisionCases(s: Store, issuer: string, token: IdToken, freshId: Id, named: Option<Id>)
    requires named == UserNamed(s, DeriveUsername(token.claims, token.subject))
    ensures var (after, outcome), key := Provisioned(s, issuer, token, freshId), Identity(issuer, token.subject);
            && after == s.(users := after.users, identities := after.identities)
            && if key in s.identities then
                 && after == s
                 && outcome == if Sound(s.users, s.identities[key]) then LoggedIn(s.identities[key])
                               else ProvisioningRefused
               else if named.Some? then
                 if Sound(s.users, named.value) && !Bootstraps(s.identities, named.value)
                 then outcome == LoggedIn(named.value)
                      && after == s.(identities := s.identities[key := named.value])
                 else outcome == ProvisioningRefused && after == s
               else if freshId in s.users then outcome == Duplicate && after == s
               else
                 && outcome == LoggedIn(freshId) && after.identities == s.identities[key := freshId]
                 && after.users == s.users[freshId := User(DeriveUsername(token.claims, token.subject), true, false)]
  {
    hide DeriveUsername, UserNamed;
  }

  lemma ProvisionSettles(s: Store, issuer: string, token: IdToken, freshId: Id)
    requires UniqueUsernames(s)
    ensures var (after, outcome) := Provisioned(s, issuer, token, freshId);
            && Settles(s.users, s.identities, Identity(issuer, token.subject), token, freshId, outcome, after.users,
                       after.identities)
            && after.states == s.states && after.assignments == s.assignments
  {
    var named := UserNamed(s, DeriveUsername(token.claims, token.subject));
    ProvisionCases(s, issuer, token, freshId, named);
    AskedUser(s, token, named);
    OneNameAsked(token, DeriveUsername(token.claims, token.subject));
    hide Provisioned, UniqueUsernames, DeriveUsername, AsksFor, UserNamed, Names, Sound, Bootstraps;
  }

  /** A completion fails for its state, then for its token, and otherwise settles on a user as the token asks. */
  lemma CompletionSettles(s: Store, cfg: Settings, now: int, state: string, exchange: Exchange, freshId: Id)
    requires UniqueUsernames(s)
    ensures var (after, outcome) := Completed(s, cfg, now, state, exchange, freshId);
            && after.states == s.states - {state}
            && if !Live(s, state, now) then outcome == StateInvalid
               else
                 var token := TokenOf(s, state, exchange);
                 if token.None? || token.value.subject == "" then outcome == TokenInvalid
                 else Settles(s.users, s.identities, Identity(cfg.issuer, token.value.subject), token.value, freshId,
                              outcome, after.users, after.identities)
  {
    hide RoleSync.SyncTo, RoleSync.Desired, Provisioned, Settles;
    if Live(s, state, now) && TokenOf(s, state, exchange).Some? {
      var taken, token := s.(states := s.states - {state}), TokenOf(s, state, exchange).value;
      ProvisionSettles(taken, cfg.issuer, token, freshId);
    }
  }

  /** A login of a subject not yet linked returns a user of the name it asks for, and links the two. */
  lemma UnlinkedLoginTakesAskedName(s: Store, cfg: Settings, now: int, state: string, exchange: Exchange, freshId: Id)
    requires UniqueUsernames(s) && Completed(s, cfg, now, state, exchange, freshId).1.LoggedIn?
    ensures Live(s, state, now) && TokenOf(s, state, exchange).Some?
    ensures var (after, outcome) := Completed(s, cfg, now, state, exchange, freshId);
            var token := TokenOf(s, state, exchange).value;
            var key := Identity(cfg.issuer, token.subject);
            key !in s.identities ==>
              && outcome.user in after.users && AsksFor(token, after.users[outcome.user].username)
              && (outcome.user in s.users ==> after.users == s.users)
              && after.identities == s.identities[key := outcome.user]
  {
    hide Completed, AsksFor, TokenOf;
    CompletionSettles(s, cfg, now, state, exchange, freshId);
  }

  /** After a login the user has the roles its claims map to, under this issuer, unless another source gives them. */
  lemma LoginGivesMappedRoles(s: Store, cfg: Settings, now: int, state: string, exchange: Exchange, freshId: Id,
      a: Assignment)
    requires Completed(s, cfg, now, state, exchange, freshId).1.LoggedIn?
    ensures var (after, outcome) := Completed(s, cfg, now, state, exchange, freshId);
            var claims := exchange(s.states[state].nonce, s.states[state].verifier).value.claims;
            var kept := a in s.assignments && s.assignments[a] != cfg.issuer;
            if a.subject == OfUser(outcome.user) && !kept
            then Get(after.assignments, a)
                 == if RoleSync.MapsTo(cfg.mappings, cfg.issuer, claims, a.role) then Some(cfg.issuer) else None
            else Get(after.assignments, a) == Get(s.assignments, a)
  {
    LoginRefreshesRoles(s, cfg, now, state, exchange, freshId);
    var claims := exchange(s.states[state].nonce, s.states[state].verifier).value.claims;
    RoleSync.DesiredIsMapped(cfg.mappings, cfg.issuer, claims, a.role);
    hide Completed, RoleSync.MapsTo, RoleSync.Desired, RoleSync.Sourced;
  }

  // ----- a started login can be completed until it expires -----

  /** A start drops exactly the expired states, and adds its own if it got through and the state is new. */
  lemma StartSweepsExpired(s: Store, cfg: Settings, now: int, state: string, nonce: string, verifier: string,
      discovered: bool, k: string)
    ensures var after := Started(s, cfg, now, state, nonce, verifier, discovered);
            && after == s.(states := after.states)
            && Get(after.states, k)
               == if Live(s, k, now) then Some(s.states[k])
                  else if k == state && discovered then Some(LoginState(nonce, verifier, Trunc(now + cfg.stateTtl)))
                  else None
  {
  }

  function TimeOf(e: Event): Option<int> {
    match e
    case Start(now, _, _, _, _) => Some(now)
    case Complete(now, _, _, _) => Some(now)
    case _ => None
  }

  /** No event up to `n` read the clock later than `now`. */
  predicate NoneLater(history: seq<Event>, now: int) {
    forall i :: 0 <= i < |history| && TimeOf(history[i]).Some? ==> TimeOf(history[i]).value <= now
  }

  lemma EventKeepsLive(s: Store, cfg: Settings, e: Event, state: string, now: int)
    requires Live(s, state, now) && (TimeOf(e).Some? ==> TimeOf(e).value <= now)
    requires !(e.Complete? && e.state == state)
    ensures state in Apply(s, cfg, e).states && Apply(s, cfg, e).states[state] == s.states[state]
  {
    StatesAfter(s, cfg, e);
    if e.Start? {
      TruncGrows(e.now, now);
      StartSweepsExpired(s, cfg, e.now, e.state, e.nonce, e.verifier, e.discovered, state);
    }
    hide Apply, Trunc, Started;
  }

  /** Until its expiry a stored state is live, with its own nonce and verifier, unless a completion named it. */
  lemma {:induction false} StartedStateStaysLive(s: Store, cfg: Settings, history: seq<Event>, i: nat, state: string,
      now: int)
    requires Opens(s, cfg, history, i, state) && Untouched(history, i, state) && NoneLater(history, now)
    requires Trunc(now) < Trunc(history[i].now + cfg.stateTtl)
    ensures var after := Replay(s, cfg, history);
            && Live(after, state, now)
            && after.states[state] == LoginState(history[i].nonce, history[i].verifier,
                                                 Trunc(history[i].now + cfg.stateTtl))
    decreases |history|
  {
    var n := |history| - 1;
    var front, e := history[..n], history[n];
    var before := Replay(s, cfg, front);
    hide Replay, Trunc;
    if i == n {
      StartSweepsExpired(before, cfg, e.now, state, e.nonce, e.verifier, true, state);
      OpensHere(s, cfg, history, state);
    } else {
      assert front[..i] == history[..i] && forall k :: 0 <= k < n ==> front[k] == history[k];
      StartedStateStaysLive(s, cfg, front, i, state, now);
      EventKeepsLive(before, cfg, e, state, now);
      ReplayLast(s, cfg, history);
    }
  }

  lemma ReplayLast(s: Store, cfg: Settings, history: seq<Event>)
    requires history != []
    ensures Replay(s, cfg, history) == Apply(Replay(s, cfg, history[..|history| - 1]), cfg, history[|history| - 1])
  {
    hide Apply;
  }

  lemma OpensHere(s: Store, cfg: Settings, history: seq<Event>, state: string)
    requires history != [] && Opens(s, cfg, history, |history| - 1, state)
    ensures var e, before := history[|history| - 1], Replay(s, cfg, history[..|history| - 1]);
            && !Live(before, state, e.now)
            && Replay(s, cfg, history) == Started(before, cfg, e.now, state, e.nonce, e.verifier, true)
  {
    ReplayLast(s, cfg, history);
    hide Replay;
  }

  /** What the account events of a history do to one user, and that they leave all others alone. */
  lemma AccountEventsDo(s: Store, cfg: Settings, user: Id, active: bool)
    ensures var after := Apply(s, cfg, Tombstone(user));
            && after.identities == s.identities && after.states == s.states && after.users.Keys == s.users.Keys
            && !Sound(after.users, user) && (user in after.users ==> after.users[user].deleted)
            && (forall u :: u != user ==> Get(after.users, u) == Get(s.users, u))
            && (LiveAccount(s, user) ==> forall a: Assignment ::
                  Get(after.assignments, a) == if a.subject == OfUser(user) then None else Get(s.assignments, a))
    ensures var after := Apply(s, cfg, SetActive(user, active));
            && after == s.(users := after.users) && after.users.Keys == s.users.Keys
            && (LiveAccount(s, user) ==> Sound(after.users, user) == active)
            && (forall u :: u != user || !LiveAccount(s, u) ==> Get(after.users, u) == Get(s.users, u))
  {
  }

  /** A user made by hand is an active one of that name with a local identity, unless name, id or identity is taken. */
  lemma AddedUserIsLocal(s: Store, cfg: Settings, user: Id, name: string)
    ensures var after, key := Apply(s, cfg, AddUser(user, name)), Identity("local", name);
            if user in s.users || key in s.identities || (exists u :: u in s.users && s.users[u].username == name)
            then after == s
            else after == s.(users := after.users, identities := after.identities)
                 && after.identities == s.identities[key := user] && Sound(after.users, user)
                 && after.users == s.users[user := after.users[user]] && after.users[user].username == name
  {
  }

  predicate LiveAccount(s: Store, user: Id) {
    user in s.users && !s.users[user].deleted
  }
}
