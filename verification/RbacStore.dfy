/** The management routes and the repositories behind them, updating the tables row by row. */
module RbacStore {
  import opened Wrappers
  import opened Policy
  import opened RbacTables
  import opened Rbac

  /** A caller as the middleware resolves one for each request. */
  datatype Principal = Principal(roleIds: set<Id>, roleSlugs: set<string>)

  function Resolve(t: Tables, caller: Id): Principal {
    Principal(RolesForUser(t, caller), Slugs(t, RolesForUser(t, caller)))
  }

  class RbacStore {
    var users: map<Id, User>
    var groups: map<Id, string>
    var members: set<Member>
    var roles: map<Id, Role>
    var permissions: set<Permission>
    var assignments: map<Assignment, string>
    var resources: map<string, set<Verb>>

    function State(): Tables
      reads this
    {
      Tables(users, groups, members, roles, permissions, assignments, resources)
    }

    constructor (t: Tables)
      ensures State() == t
    {
      users, groups, members, roles := t.users, t.groups, t.members, t.roles;
      permissions, assignments, resources := t.permissions, t.assignments, t.resources;
    }

    method RoleBySlug(slug: string) returns (role: Option<Id>)
      ensures role.Some? ==> role.value in roles && roles[role.value].slug == slug
      ensures role.None? ==> forall r :: r in roles ==> roles[r].slug != slug
    {
      var matching := set r | r in roles && roles[r].slug == slug;
      if matching == {} {
        assert forall r :: r in roles && roles[r].slug == slug ==> r in matching;
        return None;
      }
      var r :| r in matching;
      return Some(r);
    }

    method AssertAdminRemains(losing: set<Id>) returns (e: Option<Error>)
      requires Valid(State())
      ensures e == if AdminRemains(State(), losing) then None else Some(LastAdmin)
    {
      var admin := RoleBySlug(ADMIN);
      if admin.None? {
        return None;
      }
      AdminHolders(State(), admin.value);
      var remaining := UserIdsWithRole(State(), admin.value);
      if remaining - losing != {} {
        return None;
      }
      return Some(LastAdmin);
    }

    method AssertNoExcessGrants(p: Principal, grants: set<Grant>) returns (e: Option<Error>)
      ensures e.None? <==> (ADMIN in p.roleSlugs || NonAuth(grants)) && grants <= GrantsForRoles(State(), p.roleIds)
      ensures e.Some? ==> e.value == SelfEscalation
    {
      if ADMIN !in p.roleSlugs && exists g :: g in grants && IsSensitiveResource(g.resource) {
        return Some(SelfEscalation);
      }
      var excess := grants - GrantsForRoles(State(), p.roleIds);
      if excess != {} {
        var g :| g in excess;
        assert g in grants && g !in GrantsForRoles(State(), p.roleIds);
        return Some(SelfEscalation);
      }
      assert forall g :: g in grants && g !in GrantsForRoles(State(), p.roleIds) ==> g in excess;
      return None;
    }

    /** Collects every grant that cannot be given; the refusal names them all. */
    method AssertGrantsGrantable(grants: set<Grant>) returns (invalid: set<Grant>)
      ensures forall g :: g in invalid <==> g in grants && !Grantable(State(), {g})
      ensures invalid == {} <==> Grantable(State(), grants)
    {
      invalid := {};
      var rest := grants;
      while rest != {}
        invariant rest <= grants
        invariant forall g :: g in invalid <==> g in grants - rest && !Grantable(State(), {g})
      {
        var g :| g in rest;
        var served := Get(resources, g.resource);
        if served.None? {
          invalid := invalid + {g};
        } else if !IsGrantable(g.resource) {
          invalid := invalid + {g};
        } else if g.verb !in served.value {
          invalid := invalid + {g};
        }
        rest := rest - {g};
      }
      assert forall g :: g in grants ==> (Grantable(State(), {g}) <==> g !in invalid);
      if Grantable(State(), grants) {
        assert forall g :: g in grants ==> Grantable(State(), {g});
      } else {
        var g :| g in grants && !(g.resource in resources && IsGrantable(g.resource)
            && g.verb in resources[g.resource]);
        assert g in {g} && !Grantable(State(), {g});
      }
    }

    method AssertMayAssignRole(caller: Id, role: Id) returns (e: Option<Error>)
      requires role in roles
      ensures e == if MayAssign(State(), caller, role) then None else Some(SelfEscalation)
    {
      var principal := Resolve(State(), caller);
      if roles[role].slug == ADMIN && ADMIN !in principal.roleSlugs {
        return Some(SelfEscalation);
      }
      e := AssertNoExcessGrants(principal, GrantsForRoles(State(), {role}));
    }

    /** Without a caller, in dev mode, no guard asks. */
    method AssignRole(caller: Option<Id>, subject: Subject, role: Id) returns (e: Option<Error>)
      requires Valid(State())
      modifies this`assignments
      ensures var op := Assign(caller, subject, role);
              e == Refusal(old(State()), op) && State() == Step(old(State()), op)
    {
      if role !in roles {
        return Some(NotFound);
      }
      e := None;
      if caller.Some? {
        e := AssertMayAssignRole(caller.value, role);
        if e.Some? {
          return;
        }
      }
      if !SubjectExists(State(), subject) {
        return Some(UnknownSubject);
      }
      if Assignment(subject, role) !in assignments {
        assignments := assignments[Assignment(subject, role) := "local"];
      }
    }

    method UnassignRole(subject: Subject, role: Id) returns (e: Option<Error>)
      requires Valid(State())
      modifies this`assignments
      ensures var op := Unassign(subject, role);
              e == Refusal(old(State()), op) && State() == Step(old(State()), op)
    {
      if role !in roles {
        return Some(NotFound);
      }
      if roles[role].slug == ADMIN {
        e := AssertAdminRemains(Losing(State(), subject));
        if e.Some? {
          return;
        }
      }
      assignments := assignments - {Assignment(subject, role)};
      return None;
    }

    method CreateCustomRole(caller: Option<Id>, id: Id, slug: string, grants: set<Grant>) returns (e: Option<Error>)
      requires Valid(State()) && id !in roles
      modifies this`roles, this`permissions
      ensures var op := CreateRole(caller, id, slug, grants);
              e == Refusal(old(State()), op) && State() == Step(old(State()), op)
    {
      var invalid := AssertGrantsGrantable(grants);
      if invalid != {} {
        return Some(InvalidGrant);
      }
      e := None;
      if caller.Some? {
        e := AssertNoExcessGrants(Resolve(State(), caller.value), grants);
        if e.Some? {
          return;
        }
      }
      var taken := RoleBySlug(slug);
      if taken.Some? {
        return Some(Duplicate);
      }
      roles := roles[id := Role(slug, false)];
      GrantAll(id, grants);
    }

    /** Inserts one row per grant; a row already there stays. */
    method GrantAll(role: Id, grants: set<Grant>)
      modifies this`permissions
      ensures permissions == old(permissions) + PermissionsOf(role, grants)
    {
      var rest := grants;
      while rest != {}
        invariant rest <= grants
        invariant permissions == old(permissions) + PermissionsOf(role, grants - rest)
      {
        var g :| g in rest;
        assert PermissionsOf(role, grants - (rest - {g})) == PermissionsOf(role, grants - rest) + {Permission(role, g)};
        permissions := permissions + {Permission(role, g)};
        rest := rest - {g};
      }
    }

    method UpdateRoleGrants(caller: Option<Id>, role: Id, grants: set<Grant>) returns (e: Option<Error>)
      requires Valid(State())
      modifies this`permissions
      ensures var op := UpdateRole(caller, role, grants);
              e == Refusal(old(State()), op) && State() == Step(old(State()), op)
    {
      if role !in roles {
        return Some(NotFound);
      }
      if roles[role].builtin {
        return Some(BuiltinRole);
      }
      var invalid := AssertGrantsGrantable(grants);
      if invalid != {} {
        return Some(InvalidGrant);
      }
      e := None;
      if caller.Some? {
        e := AssertNoExcessGrants(Resolve(State(), caller.value), grants);
        if e.Some? {
          return;
        }
      }
      permissions := WithoutRole(State(), role);
      GrantAll(role, grants);
    }

    method DeleteCustomRole(role: Id) returns (e: Option<Error>)
      requires Valid(State())
      modifies this`roles, this`permissions
      ensures var op := DeleteRole(role);
              e == Refusal(old(State()), op) && State() == Step(old(State()), op)
    {
      if role !in roles {
        return Some(NotFound);
      }
      if roles[role].builtin {
        return Some(BuiltinRole);
      }
      if exists a :: a in assignments && a.role == role {
        return Some(RoleInUse);
      }
      permissions := WithoutRole(State(), role);
      roles := roles - {role};
      return None;
    }

    method DeleteUserGroup(group: Id) returns (e: Option<Error>)
      requires Valid(State())
      modifies this`groups, this`members, this`assignments
      ensures var op := DeleteGroup(group);
              e == Refusal(old(State()), op) && State() == Step(old(State()), op)
    {
      if group !in groups {
        return Some(NotFound);
      }
      if CarriesAdmin(State(), OfGroup(group)) {
        e := AssertAdminRemains(Members(State(), group));
        if e.Some? {
          return;
        }
      }
      assignments := map a | a in assignments && a.subject != OfGroup(group) :: assignments[a];
      members := set m | m in members && m.group != group;
      groups := groups - {group};
      return None;
    }

    method AddGroupMember(group: Id, user: Id) returns (e: Option<Error>)
      requires Valid(State())
      modifies this`members
      ensures var op := AddMember(group, user);
              e == Refusal(old(State()), op) && State() == Step(old(State()), op)
    {
      if group !in groups {
        return Some(NotFound);
      }
      if user !in users {
        return Some(ForeignKey);
      }
      members := members + {Member(user, group)};
      return None;
    }

    method RemoveGroupMember(group: Id, user: Id) returns (e: Option<Error>)
      requires Valid(State())
      modifies this`members
      ensures var op := RemoveMember(group, user);
              e == Refusal(old(State()), op) && State() == Step(old(State()), op)
    {
      if group !in groups {
        return Some(NotFound);
      }
      if CarriesAdmin(State(), OfGroup(group)) {
        e := AssertAdminRemains({user});
        if e.Some? {
          return;
        }
      }
      members := members - {Member(user, group)};
      return None;
    }

    method SetActive(user: Id, active: Option<bool>) returns (e: Option<Error>)
      requires Valid(State())
      modifies this`users
      ensures var op := UpdateUser(user, active);
              e == Refusal(old(State()), op) && State() == Step(old(State()), op)
    {
      if !LiveUser(State(), user) {
        return Some(NotFound);
      }
      if active == Some(false) {
        e := AssertAdminRemains({user});
        if e.Some? {
          return;
        }
      }
      if active.Some? {
        users := users[user := users[user].(active := active.value)];
      }
      return None;
    }

    /** The tombstone: the row stays, everything that grants access goes. */
    method SoftDelete(user: Id) returns (e: Option<Error>)
      requires Valid(State())
      modifies this`users, this`members, this`assignments
      ensures var op := DeleteUser(user);
              e == Refusal(old(State()), op) && State() == Step(old(State()), op)
    {
      if !LiveUser(State(), user) {
        return Some(NotFound);
      }
      e := AssertAdminRemains({user});
      if e.Some? {
        return;
      }
      users := users[user := users[user].(active := false, deleted := true)];
      assignments := map a | a in assignments && a.subject != OfUser(user) :: assignments[a];
      members := set m | m in members && m.user != user;
    }
  }
}
