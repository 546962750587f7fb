/** `ansina.auth.role_sync`: claims to roles, one provider's rows at a time. */
module RoleSync {
  import opened Wrappers
  import opened RbacTables

  datatype Item = Str(text: string) | NotStr

  datatype Claim = Text(text: string) | List(items: seq<Item>) | Other

  type Claims = map<string, Claim>

  datatype Mapping = Mapping(provider: string, claim: string, value: string, role: Id)

  type Assignments = map<Assignment, string>

  predicate ClaimMatches(claims: Claims, claim: string, value: string) {
    claim in claims &&
    match claims[claim]
    case Text(text) => text == value
    case List(items) => Str(value) in items
    case Other => false
  }

  function Desired(mappings: set<Mapping>, provider: string, claims: Claims): set<Id> {
    set m | m in mappings && m.provider == provider && ClaimMatches(claims, m.claim, m.value) :: m.role
  }

  /** The claims give a role: some mapping of the provider names it for a text that the claim is, or lists. */
  predicate MapsTo(mappings: set<Mapping>, provider: string, claims: Claims, role: Id) {
    exists m :: m in mappings && m.provider == provider && m.role == role && m.claim in claims
      && (claims[m.claim] == Text(m.value) || Mentions(claims[m.claim], m.value))
  }

  predicate Mentions(claim: Claim, value: string) {
    claim.List? && exists i :: 0 <= i < |claim.items| && claim.items[i] == Str(value)
  }

  lemma DesiredIsMapped(mappings: set<Mapping>, provider: string, claims: Claims, role: Id)
    ensures role in Desired(mappings, provider, claims) <==> MapsTo(mappings, provider, claims, role)
  {
  }

  /** `role_ids_for_subject`, scoped to one source. */
  function Sourced(rows: Assignments, user: Id, provider: string): set<Id> {
    set a | a in rows && a.subject == OfUser(user) && rows[a] == provider :: a.role
  }

  predicate Owned(rows: Assignments, a: Assignment, user: Id, provider: string) {
    a.subject == OfUser(user) && (a in rows ==> rows[a] == provider)
  }

  /**
   * `after` is `before` with the user's rows of this provider replaced by one for each
   * desired role that no other source already holds for the user.
   */
  ghost predicate Synced(before: Assignments, after: Assignments, user: Id, provider: string, desired: set<Id>) {
    && (forall a :: Owned(before, a, user, provider) ==>
        (a in after <==> a.role in desired) && (a in after ==> after[a] == provider))
    && (forall a :: !Owned(before, a, user, provider) ==>
        (a in after <==> a in before) && (a in after && a in before ==> after[a] == before[a]))
  }

  /** The table a sync of the user's rows leads to. */
  function SyncTo(before: Assignments, user: Id, provider: string, desired: set<Id>): (after: Assignments)
    ensures Synced(before, after, user, provider, desired)
  {
    (map a | a in before && !(a.subject == OfUser(user) && before[a] == provider) :: before[a])
    + (map role | role in desired && Owned(before, Assignment(OfUser(user), role), user,
        provider) :: Assignment(OfUser(user), role) := provider)
  }

  lemma SourcedRow(rows: Assignments, user: Id, provider: string, role: Id)
    ensures var a := Assignment(OfUser(user), role); role in Sourced(rows, user, provider) <==>
        a in rows && rows[a] == provider
  {
  }

  /** There is one such table, and syncing it again with the same claims leaves it alone. */
  lemma SyncIsIdempotent(before: Assignments, after: Assignments, again: Assignments, user: Id, provider: string,
      desired: set<Id>)
    requires Synced(before, after, user, provider, desired)
    ensures Synced(before, again, user, provider, desired) ==> again == after
    ensures Synced(after, again, user, provider, desired) ==> again == after
    ensures Sourced(after, user, provider) ==
              set role | role in desired && Owned(before, Assignment(OfUser(user), role), user, provider)
  {
    if Synced(before, again, user, provider, desired) {
      SameSync(before, after, again, user, provider, desired);
    }
    if Synced(after, again, user, provider, desired) {
      assert forall a :: Owned(before, a, user, provider) ==> Owned(after, a, user, provider);
      assert forall a :: !Owned(before, a, user, provider) ==> !Owned(after, a, user, provider);
      assert Synced(before, again, user, provider, desired);
      SameSync(before, after, again, user, provider, desired);
    }
    forall role
      ensures role in Sourced(after, user, provider) <==>
          role in desired && Owned(before, Assignment(OfUser(user), role), user, provider) {
      SourcedRow(after, user, provider, role);
    }
  }

  lemma SameSync(before: Assignments, p: Assignments, q: Assignments, user: Id, provider: string, desired: set<Id>)
    requires Synced(before, p, user, provider, desired) && Synced(before, q, user, provider, desired)
    ensures p == q
  {
    forall a ensures (a in p <==> a in q) && (a in p && a in q ==> p[a] == q[a]) {
      assert Owned(before, a, user, provider) || !Owned(before, a, user, provider);
    }
    assert p.Keys == q.Keys;
  }

  class RoleSync {
    const mappings: set<Mapping>
    var users: set<Id>
    var assignments: Assignments

    constructor (mappings: set<Mapping>, users: set<Id>, assignments: Assignments)
      ensures this.mappings == mappings && this.users == users && this.assignments == assignments
    {
      this.mappings, this.users, this.assignments := mappings, users, assignments;
    }

    /** A row already there stays, whatever its source. */
    method AssignUser(user: Id, role: Id, source: string) returns (unknownSubject: bool)
      modifies this`assignments
      ensures unknownSubject <==> user !in users
      ensures var a := Assignment(OfUser(user), role);
              assignments == if unknownSubject || a in old(assignments) then old(assignments)
                  else old(assignments)[a := source]
    {
      if user !in users {
        return true;
      }
      if Assignment(OfUser(user), role) !in assignments {
        assignments := assignments[Assignment(OfUser(user), role) := source];
      }
      return false;
    }

    method UnassignUser(user: Id, role: Id, source: string)
      modifies this`assignments
      ensures var a := Assignment(OfUser(user), role);
              assignments == if a in old(assignments)
                  && old(assignments)[a] == source then old(assignments) - {a} else old(assignments)
    {
      var a := Assignment(OfUser(user), role);
      if a in assignments && assignments[a] == source {
        assignments := assignments - {a};
      }
    }

    method SyncMappedRoles(user: Id, provider: string, claims: Claims) returns (unknownSubject: bool)
      modifies this`assignments
      ensures var desired := Desired(mappings, provider, claims);
              && (unknownSubject <==> user !in users && desired - Sourced(old(assignments), user, provider) != {})
              && (unknownSubject ==> assignments == old(assignments))
              && (!unknownSubject ==> assignments == SyncTo(old(assignments), user, provider, desired))
    {
      var desired := Desired(mappings, provider, claims);
      var current := Sourced(assignments, user, provider);
      var missing := desired - current;
      while missing != {}
        invariant missing <= desired - current
        invariant user in users || missing == desired - current
        invariant forall a :: a in assignments <==>
            a in old(assignments) || (a.subject == OfUser(user) && a.role in desired - current - missing)
        invariant forall a :: a in assignments ==>
            assignments[a] == if a in old(assignments) then old(assignments)[a] else provider
      {
        var role :| role in missing;
        unknownSubject := AssignUser(user, role, provider);
        if unknownSubject {
          return;
        }
        missing := missing - {role};
      }
      ghost var granted := assignments;
      assert user in users || desired - current == {};
      var extra := current - desired;
      while extra != {}
        invariant extra <= current - desired
        invariant forall a :: a in assignments <==>
            a in granted && !(a.subject == OfUser(user) && a.role in current - desired - extra)
        invariant forall a :: a in assignments ==> assignments[a] == granted[a]
      {
        var role :| role in extra;
        SourcedRow(old(assignments), user, provider, role);
        UnassignUser(user, role, provider);
        extra := extra - {role};
      }
      unknownSubject := false;
      forall role ensures role in current <==> role in Sourced(old(assignments), user, provider) {
        SourcedRow(old(assignments), user, provider, role);
      }
      SameSync(old(assignments), assignments, SyncTo(old(assignments), user, provider, desired), user, provider,
          desired);
    }
  }
}
