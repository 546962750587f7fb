/** The RBAC tables and the joins over them (`ansina.auth.repositories`). */
module RbacTables {
  import opened Wrappers
  import opened Policy

  type Id = string

  const ADMIN := "admin"

  datatype User = User(username: string, active: bool, deleted: bool)

  datatype Role = Role(slug: string, builtin: bool)

  datatype Subject = OfUser(id: Id) | OfGroup(id: Id)

  datatype Grant = Grant(resource: string, verb: Verb)

  datatype Permission = Permission(role: Id, grant: Grant)

  datatype Member = Member(user: Id, group: Id)

  /** The unique key of a `role_assignments` row; the row's `source` is the map's value. */
  datatype Assignment = Assignment(subject: Subject, role: Id)

  datatype Tables = Tables(
    users: map<Id, User>,
    groups: map<Id, string>,
    members: set<Member>,
    roles: map<Id, Role>,
    permissions: set<Permission>,
    assignments: map<Assignment, string>,
    resources: map<string, set<Verb>>)

  /** The schema's unique and foreign keys. */
  ghost predicate Valid(t: Tables) {
    && (forall r, s :: r in t.roles && s in t.roles && t.roles[r].slug == t.roles[s].slug ==> r == s)
    && (forall a :: a in t.assignments ==> a.role in t.roles)
    && (forall p :: p in t.permissions ==> p.role in t.roles)
    && (forall m :: m in t.members ==> m.user in t.users && m.group in t.groups)
  }

  /** A subject's rows are a user's own, or those of a group the user is in. */
  predicate Reaches(t: Tables, user: Id, subject: Subject) {
    match subject
    case OfUser(id) => id == user
    case OfGroup(id) => Member(user, id) in t.members
  }

  function RolesForUser(t: Tables, user: Id): set<Id> {
    set a | a in t.assignments && a.role in t.roles && Reaches(t, user, a.subject) :: a.role
  }

  predicate Living(t: Tables, user: Id) {
    user in t.users && t.users[user].active && !t.users[user].deleted
  }

  /** `user_ids_with_role`, as the query's two halves: direct holders, and members of holding groups. */
  function UserIdsWithRole(t: Tables, role: Id): set<Id> {
    set u | u in t.users && Living(t, u) && (u in DirectHolders(t, role) || u in GroupHolders(t, role))
  }

  function DirectHolders(t: Tables, role: Id): set<Id> {
    set a | a in t.assignments && a.subject.OfUser? && a.role == role :: a.subject.id
  }

  function GroupHolders(t: Tables, role: Id): set<Id> {
    set m | m in t.members && Assignment(OfGroup(m.group), role) in t.assignments :: m.user
  }

  function RolesOf(t: Tables, subject: Subject): set<Id> {
    set a | a in t.assignments && a.role in t.roles && a.subject == subject :: a.role
  }

  function Members(t: Tables, group: Id): set<Id> {
    set m | m in t.members && m.group == group :: m.user
  }

  function GrantsForRoles(t: Tables, roles: set<Id>): set<Grant> {
    set p | p in t.permissions && p.role in roles :: p.grant
  }

  function GrantsForUser(t: Tables, user: Id): set<Grant> {
    GrantsForRoles(t, RolesForUser(t, user))
  }

  function Slugs(t: Tables, roles: set<Id>): set<string> {
    set r | r in roles && r in t.roles :: t.roles[r].slug
  }

  predicate HoldsAdmin(t: Tables, user: Id) {
    ADMIN in Slugs(t, RolesForUser(t, user))
  }

  predicate CarriesAdmin(t: Tables, subject: Subject) {
    ADMIN in Slugs(t, RolesOf(t, subject))
  }

  function LivingAdmins(t: Tables): set<Id> {
    set u | u in t.users && Living(t, u) && HoldsAdmin(t, u)
  }

  predicate AdminExists(t: Tables) {
    exists r :: r in t.roles && t.roles[r].slug == ADMIN
  }

  /** Among living users, `user_ids_with_role` is exactly the inverse of `roles_for_user`. */
  lemma UserIdsInvertRoles(t: Tables, user: Id, role: Id)
    requires Valid(t)
    ensures user in UserIdsWithRole(t, role) <==> Living(t, user) && role in RolesForUser(t, user)
  {
    if Living(t, user) && role in RolesForUser(t, user) {
      var a :| a in t.assignments && a.role == role && Reaches(t, user, a.subject);
      if a.subject.OfUser? {
        assert user in DirectHolders(t, role);
      } else {
        var m := Member(user, a.subject.id);
        assert m in t.members && Assignment(OfGroup(m.group), role) == a;
        assert user in GroupHolders(t, role);
      }
    }
    if user in UserIdsWithRole(t, role) {
      if user in DirectHolders(t, role) {
        assert Assignment(OfUser(user), role) in t.assignments;
      } else {
        var m :| m in t.members && m.user == user && Assignment(OfGroup(m.group), role) in t.assignments;
        assert Reaches(t, user, OfGroup(m.group));
      }
    }
  }

  /** With the admin role in place, its holders are the living Admins. */
  lemma AdminHolders(t: Tables, admin: Id)
    requires Valid(t) && admin in t.roles && t.roles[admin].slug == ADMIN
    ensures UserIdsWithRole(t, admin) == LivingAdmins(t)
  {
    forall u ensures u in UserIdsWithRole(t, admin) <==> u in LivingAdmins(t) {
      UserIdsInvertRoles(t, u, admin);
      if HoldsAdmin(t, u) {
        var r :| r in RolesForUser(t, u) && r in t.roles && t.roles[r].slug == ADMIN;
        assert r == admin;
      }
    }
  }

  lemma HoldsAdminBy(t: Tables, user: Id) returns (a: Assignment)
    requires HoldsAdmin(t, user)
    ensures a in t.assignments && Reaches(t, user, a.subject) && a.role in t.roles && t.roles[a.role].slug == ADMIN
  {
    var r :| r in RolesForUser(t, user) && r in t.roles && t.roles[r].slug == ADMIN;
    a :| a in t.assignments && a.role == r && Reaches(t, user, a.subject);
  }

  lemma GrantHeldBy(t: Tables, user: Id, g: Grant) returns (a: Assignment)
    requires g in GrantsForUser(t, user)
    ensures a in t.assignments && Reaches(t, user, a.subject) && a.role in t.roles
        && Permission(a.role, g) in t.permissions
  {
    var p :| p in t.permissions && p.role in RolesForUser(t, user) && p.grant == g;
    a :| a in t.assignments && a.role == p.role && Reaches(t, user, a.subject);
    assert p == Permission(a.role, g);
  }
}
