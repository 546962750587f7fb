/** What each management operation that is let through means for who holds what, and when it is let through. */
module RbacEffects {
  import opened Wrappers
  import opened Policy
  import opened RbacTables
  import opened Rbac

  /** `user` holds `role` through a row other than `but`. */
  predicate HeldWithout(t: Tables, user: Id, role: Id, but: set<Assignment>) {
    exists a :: a in t.assignments && a !in but && a.role == role && role in t.roles && Reaches(t, user, a.subject)
  }

  lemma HeldIsRole(t: Tables, user: Id, role: Id)
    ensures role in RolesForUser(t, user) <==> HeldWithout(t, user, role, {})
  {
  }

  /** Nothing but the assignments may differ. */
  predicate SameButAssignments(t: Tables, after: Tables) {
    after == t.(assignments := after.assignments)
  }

  // ----- attaching and detaching roles -----

  /** An assignment adds its one row, of local source, and gives the role to exactly those its subject reaches. */
  lemma AssignGives(t: Tables, caller: Option<Id>, subject: Subject, role: Id, user: Id)
    requires Refusal(t, Assign(caller, subject, role)).None?
    ensures var after, row := Step(t, Assign(caller, subject, role)), Assignment(subject, role);
            && SameButAssignments(t, after)
            && after.assignments == (if row in t.assignments then t.assignments else t.assignments[row := "local"])
            && RolesForUser(after, user) == RolesForUser(t, user) + (if Reaches(t, user, subject) then {role} else {})
            && GrantsForUser(after, user)
               == GrantsForUser(t, user) + (if Reaches(t, user, subject) then GrantsForRoles(t, {role}) else {})
  {
    var after := Step(t, Assign(caller, subject, role));
    assert after.assignments.Keys == t.assignments.Keys + {Assignment(subject, role)};
    hide Refusal, Effect;
    forall r ensures r in RolesForUser(after, user)
                <==> r in RolesForUser(t, user) || (Reaches(t, user, subject) && r == role) {
      HeldIsRole(t, user, r);
      HeldIsRole(after, user, r);
      if r == role && Reaches(t, user, subject) {
        assert Assignment(subject, role) in after.assignments;
      }
    }
    assert RolesForUser(after, user) == RolesForUser(t, user) + (if Reaches(t, user, subject) then {role} else {});
    GrantsOfMore(t, after, RolesForUser(t, user), if Reaches(t, user, subject) then {role} else {});
  }

  lemma GrantsOfMore(t: Tables, after: Tables, some: set<Id>, more: set<Id>)
    requires after.permissions == t.permissions
    ensures GrantsForRoles(after, some + more) == GrantsForRoles(t, some) + GrantsForRoles(t, more)
  {
    forall g ensures g in GrantsForRoles(after, some + more)
                <==> g in GrantsForRoles(t, some) || g in GrantsForRoles(t, more) {
      if g in GrantsForRoles(after, some + more) {
        var p :| p in after.permissions && p.role in some + more && p.grant == g;
        assert p.role in some || p.role in more;
      }
    }
  }

  /** A detachment removes its one row; a role is left exactly where another row gives it. */
  lemma UnassignTakes(t: Tables, subject: Subject, role: Id, user: Id)
    requires Refusal(t, Unassign(subject, role)).None?
    ensures var after, row := Step(t, Unassign(subject, role)), Assignment(subject, role);
            && SameButAssignments(t, after)
            && row !in after.assignments
            && (forall a :: a != row ==> Get(after.assignments, a) == Get(t.assignments, a))
            && forall r :: r in RolesForUser(after, user) <==> HeldWithout(t, user, r, {row})
  {
    var after, row := Step(t, Unassign(subject, role)), Assignment(subject, role);
    assert after == t.(assignments := t.assignments - {row});
    hide Refusal;
    forall r ensures r in RolesForUser(after, user) <==> HeldWithout(t, user, r, {row}) {
      HeldIsRole(after, user, r);
    }
  }

  /** So who had the role through that row alone has it no more, by neither of the two joins. */
  lemma DetachedRoleIsGone(t: Tables, subject: Subject, role: Id, user: Id)
    requires Valid(t) && Refusal(t, Unassign(subject, role)).None?
    requires forall a :: a in t.assignments && a.role == role && Reaches(t, user, a.subject) ==> a.subject == subject
    ensures var after := Step(t, Unassign(subject, role));
            && role !in RolesForUser(after, user) && user !in UserIdsWithRole(after, role)
            && RolesForUser(after, user) == RolesForUser(t, user) - {role}
            && GrantsForUser(after, user) == GrantsForRoles(t, RolesForUser(t, user) - {role})
  {
    var after, row := Step(t, Unassign(subject, role)), Assignment(subject, role);
    UnassignTakes(t, subject, role, user);
    StepKeepsValid(t, Unassign(subject, role));
    UserIdsInvertRoles(after, user, role);
    hide Refusal, Step, Valid;
    forall r ensures r in RolesForUser(after, user) <==> r in RolesForUser(t, user) && r != role {
      HeldIsRole(t, user, r);
      if r != role && r in RolesForUser(t, user) {
        var a :| a in t.assignments && a.role == r && Reaches(t, user, a.subject);
        assert a != row;
      }
    }
    assert RolesForUser(after, user) == RolesForUser(t, user) - {role};
  }

  // ----- custom roles -----

  /** A new role is a custom one under its slug with just its grants, and nobody's roles or grants change. */
  lemma CreateRoleAdds(t: Tables, caller: Option<Id>, id: Id, slug: string, grants: set<Grant>, user: Id)
    requires Valid(t) && id !in t.roles && Refusal(t, CreateRole(caller, id, slug, grants)).None?
    ensures var after := Step(t, CreateRole(caller, id, slug, grants));
            && after == t.(roles := t.roles[id := Role(slug, false)], permissions := after.permissions)
            && GrantsForRoles(after, {id}) == grants
            && (forall r :: r != id ==> GrantsForRoles(after, {r}) == GrantsForRoles(t, {r}))
            && RolesForUser(after, user) == RolesForUser(t, user)
            && GrantsForUser(after, user) == GrantsForUser(t, user)
  {
    var after := Step(t, CreateRole(caller, id, slug, grants));
    assert after == t.(roles := t.roles[id := Role(slug, false)], permissions := t.permissions
        + PermissionsOf(id, grants));
    hide Refusal;
    NewGrants(t, after, id, grants);
    assert RolesForUser(after, user) == RolesForUser(t, user);
    assert id !in RolesForUser(t, user);
    forall g ensures g in GrantsForUser(after, user) <==> g in GrantsForUser(t, user) {
      if g in GrantsForUser(after, user) {
        var p :| p in after.permissions && p.role in RolesForUser(after, user) && p.grant == g;
        assert p in t.permissions;
      }
    }
  }

  lemma NewGrants(t: Tables, after: Tables, role: Id, grants: set<Grant>)
    requires after.permissions == WithoutRole(t, role) + PermissionsOf(role, grants)
          || (after.permissions == t.permissions + PermissionsOf(role, grants)
              && forall p :: p in t.permissions ==> p.role != role)
    ensures GrantsForRoles(after, {role}) == grants
    ensures forall r :: r != role ==> GrantsForRoles(after, {r}) == GrantsForRoles(t, {r})
  {
    forall g ensures g in GrantsForRoles(after, {role}) <==> g in grants {
      if g in grants {
        assert Permission(role, g) in PermissionsOf(role, grants);
        assert Permission(role, g) in after.permissions;
      }
    }
    forall r | r != role ensures GrantsForRoles(after, {r}) == GrantsForRoles(t, {r}) {
      forall g ensures g in GrantsForRoles(after, {r}) <==> g in GrantsForRoles(t, {r}) {
        assert Permission(r, g) in after.permissions <==> Permission(r, g) in t.permissions;
        OneRolesGrant(t, r, g);
        OneRolesGrant(after, r, g);
      }
    }
  }

  lemma OneRolesGrant(t: Tables, role: Id, g: Grant)
    ensures g in GrantsForRoles(t, {role}) <==> Permission(role, g) in t.permissions
  {
    if g in GrantsForRoles(t, {role}) {
      var p :| p in t.permissions && p.role in {role} && p.grant == g;
      assert p == Permission(role, g);
    }
  }

  /** An update replaces one role's grants as a whole; a holder has its other roles' grants and the new ones. */
  lemma UpdateRoleReplaces(t: Tables, caller: Option<Id>, role: Id, grants: set<Grant>, user: Id)
    requires Refusal(t, UpdateRole(caller, role, grants)).None?
    ensures var after := Step(t, UpdateRole(caller, role, grants));
            && after == t.(permissions := after.permissions)
            && GrantsForRoles(after, {role}) == grants
            && (forall r :: r != role ==> GrantsForRoles(after, {r}) == GrantsForRoles(t, {r}))
            && RolesForUser(after, user) == RolesForUser(t, user)
            && GrantsForUser(after, user) == GrantsForRoles(t, RolesForUser(t, user) - {role})
               + (if role in RolesForUser(t, user) then grants else {})
  {
    var after := Step(t, UpdateRole(caller, role, grants));
    assert after == t.(permissions := WithoutRole(t, role) + PermissionsOf(role, grants));
    hide Refusal;
    NewGrants(t, after, role, grants);
    var roles := RolesForUser(t, user);
    assert RolesForUser(after, user) == roles;
    forall g ensures g in GrantsForRoles(after, roles)
                <==> g in GrantsForRoles(t, roles - {role}) || (role in roles && g in grants) {
      if g in GrantsForRoles(t, roles - {role}) {
        var p :| p in t.permissions && p.role in roles - {role} && p.grant == g;
        assert p in after.permissions;
      }
      if role in roles && g in grants {
        assert Permission(role, g) in after.permissions;
      }
    }
  }

  /** A deleted role was nobody's: it goes with its grants, and nobody's roles or grants change. */
  lemma DeleteRoleRemoves(t: Tables, role: Id, user: Id)
    requires Refusal(t, DeleteRole(role)).None?
    ensures var after := Step(t, DeleteRole(role));
            && after == t.(roles := t.roles - {role}, permissions := after.permissions)
            && GrantsForRoles(after, {role}) == {} && role !in RolesForUser(t, user)
            && (forall r :: r != role ==> GrantsForRoles(after, {r}) == GrantsForRoles(t, {r}))
            && RolesForUser(after, user) == RolesForUser(t, user)
            && GrantsForUser(after, user) == GrantsForUser(t, user)
  {
    var after := Step(t, DeleteRole(role));
    assert after == t.(roles := t.roles - {role}, permissions := WithoutRole(t, role));
    assert WithoutRole(t, role) == WithoutRole(t, role) + PermissionsOf(role, {});
    NewGrants(t, after, role, {});
    assert RolesForUser(after, user) == RolesForUser(t, user);
    forall g ensures g in GrantsForUser(after, user) <==> g in GrantsForUser(t, user) {
      if g in GrantsForUser(t, user) {
        var p :| p in t.permissions && p.role in RolesForUser(t, user) && p.grant == g;
        assert p in after.permissions;
      }
    }
  }

  // ----- groups and users -----

  /** A member gains exactly the group's roles; nobody else gains or loses anything. */
  lemma AddMemberGives(t: Tables, group: Id, member: Id, user: Id)
    requires Refusal(t, AddMember(group, member)).None?
    ensures var after := Step(t, AddMember(group, member));
            && after == t.(members := t.members + {Member(member, group)})
            && RolesForUser(after, user)
               == RolesForUser(t, user) + (if user == member then RolesOf(t, OfGroup(group)) else {})
            && GrantsForUser(after, user) == GrantsForUser(t, user)
               + (if user == member then GrantsForRoles(t, RolesOf(t, OfGroup(group))) else {})
  {
    var after := Step(t, AddMember(group, member));
    hide Refusal;
    var more := if user == member then RolesOf(t, OfGroup(group)) else {};
    forall r ensures r in RolesForUser(after, user) <==> r in RolesForUser(t, user) || r in more {
      HeldIsRole(t, user, r);
      HeldIsRole(after, user, r);
      if r in more {
        var a :| a in t.assignments && a.role in t.roles && a.subject == OfGroup(group) && a.role == r;
        assert Reaches(after, user, a.subject);
      }
    }
    assert RolesForUser(after, user) == RolesForUser(t, user) + more;
    GrantsOfMore(t, after, RolesForUser(t, user), more);
  }

  /** The rows of a group that reach `user` only through a membership. */
  function RowsOf(t: Tables, subject: Subject): set<Assignment> {
    set a | a in t.assignments && a.subject == subject
  }

  /** A member who leaves keeps exactly the roles some other row gives; nobody else loses anything. */
  lemma RemoveMemberTakes(t: Tables, group: Id, member: Id, user: Id)
    requires Refusal(t, RemoveMember(group, member)).None?
    ensures var after := Step(t, RemoveMember(group, member));
            && after == t.(members := t.members - {Member(member, group)})
            && (user != member ==> RolesForUser(after, user) == RolesForUser(t, user))
            && (forall r :: r in RolesForUser(after, member) <==>
                  HeldWithout(t, member, r, RowsOf(t, OfGroup(group))))
            && (user != member ==> GrantsForUser(after, user) == GrantsForUser(t, user))
  {
    var after := Step(t, RemoveMember(group, member));
    assert after == t.(members := t.members - {Member(member, group)});
    hide Refusal;
    forall r ensures r in RolesForUser(after, member) <==> HeldWithout(t, member, r, RowsOf(t, OfGroup(group))) {
      HeldIsRole(after, member, r);
    }
    if user != member {
      forall s ensures Reaches(after, user, s) == Reaches(t, user, s) {
      }
      assert RolesForUser(after, user) == RolesForUser(t, user);
    }
  }

  /** A group goes with its members and its rows: everybody keeps exactly the roles some other row gives. */
  lemma DeleteGroupTakes(t: Tables, group: Id, user: Id)
    requires Refusal(t, DeleteGroup(group)).None?
    ensures var after := Step(t, DeleteGroup(group));
            && after.users == t.users && after.roles == t.roles && after.permissions == t.permissions
            && after.resources == t.resources && after.groups == t.groups - {group}
            && (forall m: Member :: m in after.members <==> m in t.members && m.group != group)
            && (forall a: Assignment :: a.subject == OfGroup(group) ==> a !in after.assignments)
            && (forall a: Assignment :: a.subject != OfGroup(group) ==>
                  Get(after.assignments, a) == Get(t.assignments, a))
            && forall r :: r in RolesForUser(after, user) <==> HeldWithout(t, user, r, RowsOf(t, OfGroup(group)))
  {
    var after := Step(t, DeleteGroup(group));
    hide Refusal;
    forall r ensures r in RolesForUser(after, user) <==> HeldWithout(t, user, r, RowsOf(t, OfGroup(group))) {
      HeldIsRole(after, user, r);
      if HeldWithout(t, user, r, RowsOf(t, OfGroup(group))) {
        var a :| a in t.assignments && a !in RowsOf(t, OfGroup(group)) && a.role == r && Reaches(t, user, a.subject);
        assert a in after.assignments && Reaches(after, user, a.subject);
      }
    }
  }

  /** A new group and a new user come with nothing; a user's name and standing are what was asked for. */
  lemma CreatedComeBare(t: Tables, id: Id, name: string, user: Id)
    ensures Refusal(t, CreateGroup(id, name)).None? ==>
              Step(t, CreateGroup(id, name)) == t.(groups := t.groups[id := name])
    ensures Refusal(t, CreateUser(id, name)).None? ==>
              var after := Step(t, CreateUser(id, name));
              && after == t.(users := after.users)
              && after.users == t.users[id := User(name, true, false)] && Living(after, id)
              && RolesForUser(after, user) == RolesForUser(t, user)
              && GrantsForUser(after, user) == GrantsForUser(t, user)
  {
  }

  /** Switching a user on or off decides whether it is living, and nothing else. */
  lemma UpdateUserSwitches(t: Tables, member: Id, active: bool, user: Id)
    requires Refusal(t, UpdateUser(member, Some(active))).None?
    ensures var after := Step(t, UpdateUser(member, Some(active)));
            && after == t.(users := after.users) && after.users.Keys == t.users.Keys
            && Living(after, member) == active && after.users[member].username == t.users[member].username
            && (user != member ==> Get(after.users, user) == Get(t.users, user))
            && RolesForUser(after, user) == RolesForUser(t, user)
            && GrantsForUser(after, user) == GrantsForUser(t, user)
    ensures Refusal(t, UpdateUser(member, None)).None? ==> Step(t, UpdateUser(member, None)) == t
  {
  }

  /** A tombstone ends one user's access for good and leaves everybody else's alone. */
  lemma DeleteUserEnds(t: Tables, member: Id, user: Id)
    requires Refusal(t, DeleteUser(member)).None?
    ensures var after := Step(t, DeleteUser(member));
            && after.groups == t.groups && after.roles == t.roles && after.permissions == t.permissions
            && after.resources == t.resources && after.users.Keys == t.users.Keys
            && !Living(after, member) && after.users[member].deleted
            && RolesForUser(after, member) == {} && GrantsForUser(after, member) == {}
            && (user != member ==>
                  && Get(after.users, user) == Get(t.users, user)
                  && RolesForUser(after, user) == RolesForUser(t, user)
                  && GrantsForUser(after, user) == GrantsForUser(t, user))
  {
    TombstoneEndsAccess(t, member);
    var after := Step(t, DeleteUser(member));
    hide Refusal;
    if user != member {
      forall r ensures r in RolesForUser(after, user) <==> r in RolesForUser(t, user) {
        HeldIsRole(t, user, r);
        HeldIsRole(after, user, r);
        if r in RolesForUser(t, user) {
          var a :| a in t.assignments && a.role == r && Reaches(t, user, a.subject);
          assert a in after.assignments && Reaches(after, user, a.subject);
        }
      }
      assert RolesForUser(after, user) == RolesForUser(t, user);
    }
  }

  // ----- when an operation is let through -----

  /** The tables in which the caller has given itself the role. */
  function GivenToSelf(t: Tables, caller: Id, role: Id): Tables {
    t.(assignments := t.assignments[Assignment(OfUser(caller), role) := "local"])
  }

  /** Having the role would change nothing for the caller, who is an Admin if it grants anything on auth. */
  predicate NothingNew(t: Tables, caller: Id, role: Id) {
    && GrantsForUser(GivenToSelf(t, caller, role), caller) == GrantsForUser(t, caller)
    && HoldsAdmin(GivenToSelf(t, caller, role), caller) == HoldsAdmin(t, caller)
    && (HoldsAdmin(t, caller) || forall g :: g in GrantsForRoles(t, {role}) ==> !IsSensitiveResource(g.resource))
  }

  lemma AdminThroughRole(t: Tables, caller: Id, role: Id)
    requires role in t.roles
    ensures HoldsAdmin(GivenToSelf(t, caller, role), caller) <==> HoldsAdmin(t, caller) || t.roles[role].slug == ADMIN
  {
    var mine := GivenToSelf(t, caller, role);
    assert mine.assignments.Keys == t.assignments.Keys + {Assignment(OfUser(caller), role)};
    if t.roles[role].slug == ADMIN {
      StillHolds(mine, caller, Assignment(OfUser(caller), role));
    }
    if HoldsAdmin(t, caller) {
      var a := HoldsAdminBy(t, caller);
      StillHolds(mine, caller, a);
    }
    if HoldsAdmin(mine, caller) {
      var a := HoldsAdminBy(mine, caller);
      if a != Assignment(OfUser(caller), role) {
        StillHolds(t, caller, a);
      }
    }
  }

  lemma StillHolds(t: Tables, user: Id, a: Assignment)
    requires a in t.assignments && Reaches(t, user, a.subject) && a.role in t.roles && t.roles[a.role].slug == ADMIN
    ensures HoldsAdmin(t, user)
  {
    assert a.role in RolesForUser(t, user);
  }

  /** A caller may hand on exactly the roles that would give the caller nothing new; dev mode hands on any. */
  lemma AssignRefusedExactly(t: Tables, caller: Option<Id>, subject: Subject, role: Id)
    ensures var e := Refusal(t, Assign(caller, subject, role));
            && (e == Some(NotFound) <==> role !in t.roles)
            && (e == Some(SelfEscalation) <==> role in t.roles && caller.Some? && !NothingNew(t, caller.value, role))
            && (e.None? ==> SubjectExists(t, subject))
            && (role in t.roles && SubjectExists(t, subject) && (caller.Some? ==> NothingNew(t, caller.value, role))
                ==> e.None?)
  {
    if role in t.roles && caller.Some? {
      var c := caller.value;
      var mine, extra := GivenToSelf(t, c, role), GrantsForRoles(t, {role});
      AdminThroughRole(t, c, role);
      forall r ensures r in RolesForUser(mine, c) <==> r in RolesForUser(t, c) || r == role {
        HeldIsRole(t, c, r);
        HeldIsRole(mine, c, r);
        assert Assignment(OfUser(c), role) in mine.assignments;
      }
      assert RolesForUser(mine, c) == RolesForUser(t, c) + {role};
      GrantsOfMore(t, mine, RolesForUser(t, c), {role});
      assert GrantsForUser(mine, c) == GrantsForUser(t, c) + extra;
      hide HoldsAdmin, RolesForUser, GrantsForRoles, GivenToSelf;
      assert GrantsForUser(mine, c) == GrantsForUser(t, c) <==> extra <= GrantsForUser(t, c);
    }
  }

  /** The grants a custom role may be given, by whom. */
  predicate MayGrant(t: Tables, caller: Option<Id>, grants: set<Grant>) {
    caller.Some? ==>
      && (forall g :: g in grants ==>
            exists p :: p in t.permissions && p.grant == g && HeldWithout(t, caller.value, p.role, {}))
      && (HoldsAdmin(t, caller.value) || forall g :: g in grants ==> !IsSensitiveResource(g.resource))
  }

  /** Each names a catalogued resource that can be granted, and a verb it serves. */
  predicate AllServed(t: Tables, grants: set<Grant>) {
    forall g :: g in grants ==>
      g.resource in t.resources && !IsSelfResource(g.resource) && g.verb in t.resources[g.resource]
  }

  lemma GrantsHeld(t: Tables, user: Id, grants: set<Grant>)
    ensures grants <= GrantsForUser(t, user) <==>
              forall g :: g in grants ==> exists p ::
                  p in t.permissions && p.grant == g && HeldWithout(t, user, p.role, {})
  {
    forall p | p in t.permissions ensures p.role in RolesForUser(t, user) <==> HeldWithout(t, user, p.role, {}) {
      HeldIsRole(t, user, p.role);
    }
    hide HeldWithout, RolesForUser;
  }

  /** Custom roles are edited exactly within what is served and what the caller holds; builtin and used roles stay. */
  lemma RoleEditsRefusedExactly(t: Tables, caller: Option<Id>, role: Id, slug: string, grants: set<Grant>)
    ensures Refusal(t, CreateRole(caller, role, slug, grants)).None? <==>
              && AllServed(t, grants) && MayGrant(t, caller, grants)
              && forall r :: r in t.roles ==> t.roles[r].slug != slug
    ensures Refusal(t, CreateRole(caller, role, slug, grants)) == Some(InvalidGrant) <==> !AllServed(t, grants)
    ensures Refusal(t, CreateRole(caller, role, slug, grants)) == Some(SelfEscalation) <==>
              AllServed(t, grants) && !MayGrant(t, caller, grants)
    ensures Refusal(t, UpdateRole(caller, role, grants)).None? <==>
              role in t.roles && !t.roles[role].builtin && AllServed(t, grants) && MayGrant(t, caller, grants)
    ensures Refusal(t, DeleteRole(role)).None? <==>
              role in t.roles && !t.roles[role].builtin && forall a :: a in t.assignments ==> a.role != role
  {
    assert Grantable(t, grants) == AllServed(t, grants);
    if caller.Some? {
      GrantsHeld(t, caller.value, grants);
      assert NonAuth(grants) <==> forall g :: g in grants ==> !IsSensitiveResource(g.resource);
      assert NoExcess(t, caller.value, grants) <==> MayGrant(t, caller, grants);
    }
    hide NoExcess, MayGrant, Grantable, AllServed;
  }

  /** A living Admin whom the subject does not reach. */
  predicate OtherAdmin(t: Tables, subject: Subject) {
    exists u :: u in t.users && Living(t, u) && HoldsAdmin(t, u) && !Reaches(t, u, subject)
  }

  /** The group has a row of the admin role. */
  predicate MakesAdmins(t: Tables, group: Id) {
    exists a :: a in t.assignments && a.subject == OfGroup(group) && a.role in t.roles && t.roles[a.role].slug == ADMIN
  }

  lemma CarriesIsMakes(t: Tables, group: Id)
    ensures CarriesAdmin(t, OfGroup(group)) <==> MakesAdmins(t, group)
  {
    if a :| a in t.assignments && a.subject == OfGroup(group) && a.role in t.roles && t.roles[a.role].slug == ADMIN {
      assert a.role in RolesOf(t, OfGroup(group));
    }
  }

  lemma RemainsMeans(t: Tables, losing: set<Id>)
    ensures AdminRemains(t, losing) <==>
              (AdminExists(t) ==> exists u :: u in t.users && Living(t, u) && HoldsAdmin(t, u) && u !in losing)
  {
    hide HoldsAdmin, Living, AdminExists;
    if u :| u in t.users && Living(t, u) && HoldsAdmin(t, u) && u !in losing {
      assert u in LivingAdmins(t) - losing;
    }
    if LivingAdmins(t) - losing != {} {
      var u :| u in LivingAdmins(t) - losing;
    }
  }

  lemma LosingIsReached(t: Tables, subject: Subject, u: Id)
    ensures u in Losing(t, subject) <==> Reaches(t, u, subject)
  {
    if subject.OfGroup? && Member(u, subject.id) in t.members {
      assert Member(u, subject.id).user in Members(t, subject.id);
    }
  }

  /** Refused as taking the last Admin exactly if it concerns the admin role and reaches every living Admin. */
  lemma DetachmentsRefusedExactly(t: Tables, subject: Subject, role: Id, group: Id)
    ensures Refusal(t, Unassign(subject, role)) ==
              if role !in t.roles then Some(NotFound)
              else if t.roles[role].slug == ADMIN && !OtherAdmin(t, subject) then Some(LastAdmin) else None
    ensures Refusal(t, DeleteGroup(group)) ==
              if group !in t.groups then Some(NotFound)
              else if MakesAdmins(t, group) && !OtherAdmin(t, OfGroup(group)) then Some(LastAdmin) else None
  {
    CarriesIsMakes(t, group);
    RemainsMeans(t, Losing(t, subject));
    RemainsMeans(t, Losing(t, OfGroup(group)));
    forall u ensures (u in Losing(t, subject) <==> Reaches(t, u, subject))
        && (u in Losing(t, OfGroup(group)) <==> Reaches(t, u, OfGroup(group))) {
      LosingIsReached(t, subject, u);
      LosingIsReached(t, OfGroup(group), u);
    }
    if MakesAdmins(t, group) {
      assert AdminExists(t);
    }
    hide AdminRemains, CarriesAdmin, MakesAdmins, HoldsAdmin, Living, AdminExists;
  }

  /** Users: likewise for the one user concerned, whether or not that user is an Admin. */
  lemma UserRemovalsRefusedExactly(t: Tables, group: Id, member: Id)
    ensures Refusal(t, RemoveMember(group, member)) ==
              if group !in t.groups then Some(NotFound)
              else if MakesAdmins(t, group) && !OtherAdmin(t, OfUser(member)) then Some(LastAdmin) else None
    ensures forall op :: op == UpdateUser(member, Some(false)) || op == DeleteUser(member) ==>
              Refusal(t, op) ==
              if !LiveUser(t, member) then Some(NotFound)
              else if AdminExists(t) && !OtherAdmin(t, OfUser(member)) then Some(LastAdmin) else None
    ensures Refusal(t, UpdateUser(member, Some(true))).None? <==> LiveUser(t, member)
    ensures Refusal(t, AddMember(group, member)).None? <==> group in t.groups && member in t.users
  {
    CarriesIsMakes(t, group);
    RemainsMeans(t, {member});
    if MakesAdmins(t, group) {
      assert AdminExists(t);
    }
    hide AdminRemains, CarriesAdmin, MakesAdmins, HoldsAdmin, Living, AdminExists;
  }

  /** A new role, group or user is refused for its name exactly if one of its kind has it, tombstones included. */
  lemma CreationsRefusedExactly(t: Tables, id: Id, name: string)
    ensures Refusal(t, CreateGroup(id, name)) ==
              if name in t.groups.Values then Some(Duplicate) else None
    ensures Refusal(t, CreateUser(id, name)) ==
              if exists u :: u in t.users && t.users[u].username == name then Some(Duplicate) else None
    ensures Refusal(t, CreateRole(None, id, name, {})) ==
              if exists r :: r in t.roles && t.roles[r].slug == name then Some(Duplicate) else None
  {
    assert Grantable(t, {});
  }
}
