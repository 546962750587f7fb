/**
 * The guarded management operations (`ansina.auth.management`, `api.routes.groups`,
 * `users`, `roles`, `role_assignments`) as steps over the tables, and what every run keeps.
 */
module Rbac {
  import opened Wrappers
  import opened Policy
  import opened RbacTables

  datatype Error =
    | NotFound | SelfEscalation | LastAdmin | BuiltinRole | RoleInUse
    | InvalidGrant | Duplicate | UnknownSubject | ForeignKey

  /** Ids of new rows are fresh. Without a caller, as in dev mode, no escalation guard runs. */
  datatype Op =
    | Assign(caller: Option<Id>, subject: Subject, role: Id)
    | Unassign(subject: Subject, role: Id)
    | CreateRole(caller: Option<Id>, id: Id, slug: string, grants: set<Grant>)
    | UpdateRole(caller: Option<Id>, role: Id, grants: set<Grant>)
    | DeleteRole(role: Id)
    | CreateGroup(id: Id, slug: string)
    | DeleteGroup(group: Id)
    | AddMember(group: Id, user: Id)
    | RemoveMember(group: Id, user: Id)
    | CreateUser(id: Id, username: string)
    | UpdateUser(user: Id, active: Option<bool>)
    | DeleteUser(user: Id)

  predicate NonAuth(grants: set<Grant>) {
    forall g :: g in grants ==> !IsSensitiveResource(g.resource)
  }

  /** `_assert_no_excess_grants` passes. */
  predicate NoExcess(t: Tables, caller: Id, grants: set<Grant>) {
    (HoldsAdmin(t, caller) || NonAuth(grants)) && grants <= GrantsForUser(t, caller)
  }

  /** `assert_may_assign_role` passes. */
  predicate MayAssign(t: Tables, caller: Id, role: Id)
    requires role in t.roles
  {
    (t.roles[role].slug == ADMIN ==> HoldsAdmin(t, caller)) && NoExcess(t, caller, GrantsForRoles(t, {role}))
  }

  /** `assert_grants_grantable` passes. */
  predicate Grantable(t: Tables, grants: set<Grant>) {
    forall g :: g in grants ==>
      g.resource in t.resources && IsGrantable(g.resource) && g.verb in t.resources[g.resource]
  }

  /** `assert_admin_remains` passes. */
  predicate AdminRemains(t: Tables, losing: set<Id>) {
    AdminExists(t) ==> LivingAdmins(t) - losing != {}
  }

  predicate SubjectExists(t: Tables, s: Subject) {
    match s
    case OfUser(id) => id in t.users
    case OfGroup(id) => id in t.groups
  }

  predicate LiveUser(t: Tables, user: Id) {
    user in t.users && !t.users[user].deleted
  }

  /** Who would lose a role detached from `subject`. */
  function Losing(t: Tables, subject: Subject): set<Id> {
    match subject
    case OfUser(id) => {id}
    case OfGroup(id) => Members(t, id)
  }

  function RoleRefusal(t: Tables, caller: Option<Id>, grants: set<Grant>): Option<Error> {
    if !Grantable(t, grants) then Some(InvalidGrant)
    else if caller.Some? && !NoExcess(t, caller.value, grants) then Some(SelfEscalation)
    else None
  }

  function AssignmentRefusal(t: Tables, op: Op): Option<Error>
    requires op.Assign? || op.Unassign?
  {
    if op.role !in t.roles then Some(NotFound)
    else if op.Assign? && op.caller.Some? && !MayAssign(t, op.caller.value, op.role) then Some(SelfEscalation)
    else if op.Assign? && !SubjectExists(t, op.subject) then Some(UnknownSubject)
    else if op.Unassign? && t.roles[op.role].slug == ADMIN
        && !AdminRemains(t, Losing(t, op.subject)) then Some(LastAdmin)
    else None
  }

  function CatalogRefusal(t: Tables, op: Op): Option<Error>
    requires op.CreateRole? || op.UpdateRole? || op.DeleteRole?
  {
    if op.CreateRole? then
      var r := RoleRefusal(t, op.caller, op.grants);
      if r.None? && exists s :: s in t.roles && t.roles[s].slug == op.slug then Some(Duplicate) else r
    else if op.role !in t.roles then Some(NotFound)
    else if t.roles[op.role].builtin then Some(BuiltinRole)
    else if op.UpdateRole? then RoleRefusal(t, op.caller, op.grants)
    else if exists a :: a in t.assignments && a.role == op.role then Some(RoleInUse)
    else None
  }

  function GroupRefusal(t: Tables, op: Op): Option<Error>
    requires op.DeleteGroup? || op.AddMember? || op.RemoveMember?
  {
    if op.group !in t.groups then Some(NotFound)
    else if op.DeleteGroup? && CarriesAdmin(t, OfGroup(op.group))
        && !AdminRemains(t, Members(t, op.group)) then Some(LastAdmin)
    else if op.RemoveMember? && CarriesAdmin(t, OfGroup(op.group)) && !AdminRemains(t, {op.user}) then Some(LastAdmin)
    else if op.AddMember? && op.user !in t.users then Some(ForeignKey)
    else None
  }

  function UserRefusal(t: Tables, op: Op): Option<Error>
    requires op.UpdateUser? || op.DeleteUser?
  {
    if !LiveUser(t, op.user) then Some(NotFound)
    else if (op.DeleteUser? || op.active == Some(false)) && !AdminRemains(t, {op.user}) then Some(LastAdmin)
    else None
  }

  /** Why an operation is refused, if it is. */
  function Refusal(t: Tables, op: Op): Option<Error> {
    match op
    case Assign(_, _, _) => AssignmentRefusal(t, op)
    case Unassign(_, _) => AssignmentRefusal(t, op)
    case CreateRole(_, _, _, _) => CatalogRefusal(t, op)
    case UpdateRole(_, _, _) => CatalogRefusal(t, op)
    case DeleteRole(_) => CatalogRefusal(t, op)
    case CreateGroup(_, slug) => if exists g :: g in t.groups && t.groups[g] == slug then Some(Duplicate) else None
    case DeleteGroup(_) => GroupRefusal(t, op)
    case AddMember(_, _) => GroupRefusal(t, op)
    case RemoveMember(_, _) => GroupRefusal(t, op)
    case CreateUser(_, name) => if exists u :: u in t.users && t.users[u].username == name then Some(Duplicate)
        else None
    case UpdateUser(_, _) => UserRefusal(t, op)
    case DeleteUser(_) => UserRefusal(t, op)
  }

  predicate Fresh(t: Tables, op: Op) {
    match op
    case CreateRole(_, id, _, _) => id !in t.roles
    case CreateGroup(id, _) => id !in t.groups
    case CreateUser(id, _) => id !in t.users
    case _ => true
  }

  function PermissionsOf(role: Id, grants: set<Grant>): set<Permission> {
    set g | g in grants :: Permission(role, g)
  }

  function WithoutRole(t: Tables, role: Id): set<Permission> {
    set p | p in t.permissions && p.role != role
  }

  /** The tables after an operation that was not refused. */
  function Effect(t: Tables, op: Op): Tables
    requires Refusal(t, op).None?
  {
    match op
    case Assign(_, subject, role) =>
      if Assignment(subject, role) in t.assignments then t
      else t.(assignments := t.assignments[Assignment(subject, role) := "local"])
    case Unassign(subject, role) => t.(assignments := t.assignments - {Assignment(subject, role)})
    case CreateRole(_, id, slug, grants) =>
      t.(roles := t.roles[id := Role(slug, false)], permissions := t.permissions + PermissionsOf(id, grants))
    case UpdateRole(_, role, grants) => t.(permissions := WithoutRole(t, role) + PermissionsOf(role, grants))
    case DeleteRole(role) => t.(roles := t.roles - {role}, permissions := WithoutRole(t, role))
    case CreateGroup(id, slug) => t.(groups := t.groups[id := slug])
    case DeleteGroup(group) =>
      t.(groups := t.groups - {group},
         members := (set m | m in t.members && m.group != group),
         assignments := map a | a in t.assignments && a.subject != OfGroup(group) :: t.assignments[a])
    case AddMember(group, user) => t.(members := t.members + {Member(user, group)})
    case RemoveMember(group, user) => t.(members := t.members - {Member(user, group)})
    case CreateUser(id, name) => t.(users := t.users[id := User(name, true, false)])
    case UpdateUser(user, active) =>
      if active.None? then t else t.(users := t.users[user := t.users[user].(active := active.value)])
    case DeleteUser(user) =>
      t.(users := t.users[user := t.users[user].(active := false, deleted := true)],
         members := (set m | m in t.members && m.user != user),
         assignments := map a | a in t.assignments && a.subject != OfUser(user) :: t.assignments[a])
  }

  function Step(t: Tables, op: Op): Tables {
    if Refusal(t, op).Some? then t else Effect(t, op)
  }

  function Run(t: Tables, ops: seq<Op>): Tables
    decreases |ops|
  {
    if ops == [] then t else Run(Step(t, ops[0]), ops[1..])
  }

  predicate AllFresh(t: Tables, ops: seq<Op>)
    decreases |ops|
  {
    ops == [] || (Fresh(t, ops[0]) && AllFresh(Step(t, ops[0]), ops[1..]))
  }

  lemma StepKeepsValid(t: Tables, op: Op)
    requires Valid(t) && Fresh(t, op)
    ensures Valid(Step(t, op))
  {
  }

  /** A tombstoned user is gone for good and reaches no role by any path. */
  lemma TombstoneEndsAccess(t: Tables, user: Id)
    requires Refusal(t, DeleteUser(user)).None?
    ensures var after := Effect(t, DeleteUser(user));
            !Living(after, user) && RolesForUser(after, user) == {} && GrantsForUser(after, user) == {}
  {
    var after := Effect(t, DeleteUser(user));
    assert forall a :: a in after.assignments ==> !Reaches(after, user, a.subject);
  }

  /**
   * After a living Admin exists, the state keeps one: a removal may only take an Admin
   * away from users whose loss the guard allowed for.
   */
  predicate KeepsOthers(t: Tables, t': Tables, losing: set<Id>) {
    forall u :: u in LivingAdmins(t) && u !in losing ==> u in LivingAdmins(t')
  }

  lemma StillAdmin(t: Tables, t': Tables, user: Id, a: Assignment)
    requires user in t'.users && Living(t', user)
    requires a in t'.assignments && Reaches(t', user, a.subject) && a.role in t'.roles && t'.roles[a.role].slug == ADMIN
    ensures user in LivingAdmins(t')
  {
    assert a.role in RolesForUser(t', user);
  }

  /** Who may stop being an Admin through an operation that is let through. */
  function AtRisk(t: Tables, op: Op): set<Id> {
    match op
    case Unassign(subject, role) => if role in t.roles && t.roles[role].slug == ADMIN then Losing(t, subject) else {}
    case DeleteGroup(group) => if CarriesAdmin(t, OfGroup(group)) then Members(t, group) else {}
    case RemoveMember(group, user) => if CarriesAdmin(t, OfGroup(group)) then {user} else {}
    case UpdateUser(user, active) => if active == Some(false) then {user} else {}
    case DeleteUser(user) => {user}
    case _ => {}
  }

  lemma CarriedBy(t: Tables, a: Assignment)
    requires a in t.assignments && a.role in t.roles && t.roles[a.role].slug == ADMIN
    ensures CarriesAdmin(t, a.subject)
  {
    assert a.role in RolesOf(t, a.subject);
  }

  lemma HolderSurvives(t: Tables, op: Op, u: Id)
    requires Fresh(t, op) && Refusal(t, op).None? && u in t.users && Living(t, u) && u !in AtRisk(t, op)
    ensures u in Effect(t, op).users && Living(Effect(t, op), u)
  {
  }

  lemma RoleSurvives(t: Tables, op: Op, a: Assignment)
    requires Fresh(t, op) && Refusal(t, op).None? && a in t.assignments && a.role in t.roles
    ensures a.role in Effect(t, op).roles && Effect(t, op).roles[a.role] == t.roles[a.role]
  {
  }

  lemma RowSurvives(t: Tables, op: Op, u: Id, a: Assignment)
    requires Refusal(t, op).None? && u !in AtRisk(t, op)
    requires a in t.assignments && Reaches(t, u, a.subject) && a.role in t.roles && t.roles[a.role].slug == ADMIN
    ensures a in Effect(t, op).assignments && Reaches(Effect(t, op), u, a.subject)
  {
    CarriedBy(t, a);
    hide Refusal, CarriesAdmin;
    if a.subject.OfGroup? {
      var m := Member(u, a.subject.id);
      assert m in t.members && m.user in Members(t, a.subject.id);
    }
  }

  lemma StepKeepsOthers(t: Tables, op: Op)
    requires Valid(t) && Fresh(t, op) && Refusal(t, op).None?
    ensures KeepsOthers(t, Effect(t, op), AtRisk(t, op))
  {
    forall u | u in LivingAdmins(t) && u !in AtRisk(t, op) ensures u in LivingAdmins(Effect(t, op)) {
      hide Effect, AtRisk, Valid, Fresh, Refusal;
      var a := HoldsAdminBy(t, u);
      HolderSurvives(t, op, u);
      RoleSurvives(t, op, a);
      RowSurvives(t, op, u, a);
      StillAdmin(t, Effect(t, op), u, a);
    }
  }

  /** Whoever an operation puts at risk, the guard has seen another living Admin. */
  lemma GuardHolds(t: Tables, op: Op)
    requires Refusal(t, op).None? && LivingAdmins(t) != {}
    ensures LivingAdmins(t) - AtRisk(t, op) != {}
  {
    var u :| u in LivingAdmins(t);
    var a := HoldsAdminBy(t, u);
    assert AdminExists(t);
    hide HoldsAdmin, LivingAdmins, Effect;
    if AtRisk(t, op) == {} {
      assert u in LivingAdmins(t) - AtRisk(t, op);
    } else {
      assert AdminRemains(t, AtRisk(t, op));
    }
  }

  /** From a state with a living Admin, every guarded operation leaves one. */
  lemma StepKeepsAnAdmin(t: Tables, op: Op)
    requires Valid(t) && Fresh(t, op) && LivingAdmins(t) != {}
    ensures LivingAdmins(Step(t, op)) != {}
  {
    hide Valid, Fresh, Refusal, Effect, AtRisk, LivingAdmins;
    if Refusal(t, op).None? {
      StepKeepsOthers(t, op);
      GuardHolds(t, op);
      var u :| u in LivingAdmins(t) - AtRisk(t, op);
    }
  }

  /** The last Admin outlives every run of guarded operations. */
  lemma {:induction false} RunKeepsAnAdmin(t: Tables, ops: seq<Op>)
    requires Valid(t) && AllFresh(t, ops) && LivingAdmins(t) != {}
    ensures Valid(Run(t, ops)) && LivingAdmins(Run(t, ops)) != {}
    decreases |ops|
  {
    if ops != [] {
      StepKeepsValid(t, ops[0]);
      StepKeepsAnAdmin(t, ops[0]);
      RunKeepsAnAdmin(Step(t, ops[0]), ops[1..]);
    }
  }

  /** The grants that the callers of a run may hand on: their own, less every auth one. */
  function Passable(t: Tables, callers: set<Id>): set<Grant> {
    set c, g | c in callers && g in GrantsForUser(t, c) && !IsSensitiveResource(g.resource) :: g
  }

  /** How far a run by non-Admin callers can get from where it started. */
  ghost predicate Bounded(t0: Tables, t: Tables, passable: set<Grant>) {
    && t.members <= t0.members
    && (forall p :: p in t.permissions ==> p in t0.permissions || p.grant in passable)
    && (forall a :: a in t.assignments && a !in t0.assignments ==> GrantsForRoles(t, {a.role}) <= passable)
    && (forall a :: a in t.assignments && a.role in t.roles && t.roles[a.role].slug == ADMIN ==>
          a in t0.assignments && a.role in t0.roles && t0.roles[a.role].slug == ADMIN)
  }

  /** What the bound means for one user: nothing beyond the start and the passable grants. */
  lemma BoundedUser(t0: Tables, t: Tables, passable: set<Grant>, user: Id)
    requires Valid(t0) && Bounded(t0, t, passable)
    ensures GrantsForUser(t, user) <= GrantsForUser(t0, user) + passable
    ensures HoldsAdmin(t, user) ==> HoldsAdmin(t0, user)
  {
    forall g | g in GrantsForUser(t, user) ensures g in GrantsForUser(t0, user) + passable {
      var a := GrantHeldBy(t, user, g);
      if a in t0.assignments {
        assert Reaches(t0, user, a.subject) && a.role in RolesForUser(t0, user);
        assert Permission(a.role, g) in t0.permissions || g in passable;
      } else {
        assert g in GrantsForRoles(t, {a.role});
      }
    }
    if HoldsAdmin(t, user) {
      var a := HoldsAdminBy(t, user);
      assert Reaches(t0, user, a.subject) && a.role in RolesForUser(t0, user);
    }
  }

  /** Assignments and grant edits come from `callers`, and nobody joins a group. */
  predicate MadeBy(op: Op, callers: set<Id>) {
    match op
    case Assign(caller, _, _) => caller.Some? && caller.value in callers
    case CreateRole(caller, _, _, _) => caller.Some? && caller.value in callers
    case UpdateRole(caller, _, _) => caller.Some? && caller.value in callers
    case AddMember(_, _) => false
    case _ => true
  }

  lemma PassedOn(t0: Tables, t: Tables, callers: set<Id>, caller: Id, grants: set<Grant>)
    requires Valid(t0) && Bounded(t0, t, Passable(t0, callers))
    requires caller in callers && !HoldsAdmin(t0, caller) && NoExcess(t, caller, grants)
    ensures grants <= Passable(t0, callers)
  {
    BoundedUser(t0, t, Passable(t0, callers), caller);
  }

  lemma AssignKeepsBound(t0: Tables, t: Tables, op: Op, callers: set<Id>)
    requires Valid(t0) && Valid(t) && Bounded(t0, t, Passable(t0, callers))
    requires op.Assign? && MadeBy(op, callers) && Refusal(t, op).None? && !HoldsAdmin(t0, op.caller.value)
    ensures Bounded(t0, Effect(t, op), Passable(t0, callers))
  {
    PassedOn(t0, t, callers, op.caller.value, GrantsForRoles(t, {op.role}));
    BoundedUser(t0, t, Passable(t0, callers), op.caller.value);
    var t' := Effect(t, op);
    forall a | a in t'.assignments && a !in t0.assignments
        ensures GrantsForRoles(t', {a.role}) <= Passable(t0, callers) {
      assert GrantsForRoles(t', {a.role}) == GrantsForRoles(t, {a.role});
    }
  }

  lemma EditKeepsBound(t0: Tables, t: Tables, op: Op, callers: set<Id>)
    requires Valid(t0) && Valid(t) && Bounded(t0, t, Passable(t0, callers)) && Fresh(t, op)
    requires (op.CreateRole? || op.UpdateRole?) && MadeBy(op, callers) && Refusal(t, op).None?
        && !HoldsAdmin(t0, op.caller.value)
    ensures Bounded(t0, Effect(t, op), Passable(t0, callers))
  {
    var passable, t' := Passable(t0, callers), Effect(t, op);
    var edited := if op.CreateRole? then op.id else op.role;
    PassedOn(t0, t, callers, op.caller.value, op.grants);
    assert t'.assignments == t.assignments && t'.members == t.members;
    forall p | p in t'.permissions ensures p in t.permissions || (p.role == edited && p.grant in passable) {
    }
    forall a | a in t'.assignments && a !in t0.assignments ensures GrantsForRoles(t', {a.role}) <= passable {
      forall g | g in GrantsForRoles(t', {a.role}) ensures g in passable {
        assert Permission(a.role, g) in t'.permissions;
        assert Permission(a.role, g) in t.permissions ==> g in GrantsForRoles(t, {a.role});
      }
    }
  }

  lemma ShrinkKeepsBound(t0: Tables, t: Tables, t': Tables, passable: set<Grant>)
    requires Bounded(t0, t, passable)
    requires t'.members <= t.members && t'.permissions <= t.permissions && t'.assignments.Keys <= t.assignments.Keys
    requires forall r :: r in t'.roles ==> r in t.roles && t'.roles[r] == t.roles[r]
    ensures Bounded(t0, t', passable)
  {
    forall a | a in t'.assignments && a !in t0.assignments ensures GrantsForRoles(t', {a.role}) <= passable {
      assert a in t.assignments;
      assert GrantsForRoles(t', {a.role}) <= GrantsForRoles(t, {a.role});
    }
    assert forall a :: a in t'.assignments ==> a in t.assignments;
  }

  lemma {:induction false} StepKeepsBound(t0: Tables, t: Tables, op: Op, callers: set<Id>)
    requires Valid(t0) && Valid(t) && Bounded(t0, t, Passable(t0, callers))
    requires Fresh(t, op) && MadeBy(op, callers) && Refusal(t, op).None?
    requires forall c :: c in callers ==> !HoldsAdmin(t0, c)
    ensures Bounded(t0, Effect(t, op), Passable(t0, callers))
  {
    if op.Assign? {
      AssignKeepsBound(t0, t, op, callers);
    } else if op.CreateRole? || op.UpdateRole? {
      EditKeepsBound(t0, t, op, callers);
    } else {
      hide Bounded;
      ShrinkKeepsBound(t0, t, Effect(t, op), Passable(t0, callers));
    }
  }

  lemma {:induction false} RunKeepsBound(t0: Tables, t: Tables, ops: seq<Op>, callers: set<Id>)
    requires Valid(t0) && Valid(t) && Bounded(t0, t, Passable(t0, callers))
    requires AllFresh(t, ops) && forall i :: 0 <= i < |ops| ==> MadeBy(ops[i], callers)
    requires forall c :: c in callers ==> !HoldsAdmin(t0, c)
    ensures Bounded(t0, Run(t, ops), Passable(t0, callers))
    decreases |ops|
  {
    hide Bounded;
    if ops != [] {
      StepKeepsValid(t, ops[0]);
      if Refusal(t, ops[0]).None? {
        StepKeepsBound(t0, t, ops[0], callers);
      }
      RunKeepsBound(t0, Step(t, ops[0]), ops[1..], callers);
    }
  }

  /**
   * No run of assignments and grant edits by callers who were no Admins, however it
   * interleaves with anything else but joining a group, gives any user a grant beyond what
   * the user held and the callers' own grants outside auth; and nobody becomes an Admin.
   */
  lemma {:induction false} NoEscalation(t: Tables, ops: seq<Op>, callers: set<Id>, user: Id)
    requires Valid(t) && AllFresh(t, ops) && forall i :: 0 <= i < |ops| ==> MadeBy(ops[i], callers)
    requires forall c :: c in callers ==> !HoldsAdmin(t, c)
    ensures GrantsForUser(Run(t, ops), user) <= GrantsForUser(t, user) + Passable(t, callers)
    ensures HoldsAdmin(Run(t, ops), user) ==> HoldsAdmin(t, user)
  {
    RunKeepsBound(t, t, ops, callers);
    BoundedUser(t, Run(t, ops), Passable(t, callers), user);
  }

  /** What a run never changes: builtin roles and their grants, and a tombstone. */
  ghost predicate KeepsRecords(t: Tables, t': Tables) {
    && (forall r :: r in t.roles && t.roles[r].builtin ==>
          r in t'.roles && t'.roles[r] == t.roles[r] && GrantsForRoles(t', {r}) == GrantsForRoles(t, {r}))
    && (forall u :: u in t.users ==>
          u in t'.users && t'.users[u].username == t.users[u].username
              && (t.users[u].deleted ==> !Living(t', u) && t'.users[u].deleted))
  }

  lemma GrantsUnchanged(t: Tables, t': Tables, role: Id)
    requires forall p: Permission :: p.role == role ==> (p in t.permissions <==> p in t'.permissions)
    ensures GrantsForRoles(t', {role}) == GrantsForRoles(t, {role})
  {
  }

  lemma StepKeepsBuiltin(t: Tables, op: Op, role: Id)
    requires Fresh(t, op) && role in t.roles && t.roles[role].builtin
    ensures role in Step(t, op).roles && Step(t, op).roles[role] == t.roles[role]
    ensures GrantsForRoles(Step(t, op), {role}) == GrantsForRoles(t, {role})
  {
    GrantsUnchanged(t, Step(t, op), role);
    hide GrantsForRoles;
  }

  lemma StepKeepsUser(t: Tables, op: Op, user: Id)
    requires Fresh(t, op) && user in t.users
    ensures user in Step(t, op).users && Step(t, op).users[user].username == t.users[user].username
    ensures t.users[user].deleted ==> Step(t, op).users[user].deleted && !Living(Step(t, op), user)
  {
  }

  lemma StepKeepsRecords(t: Tables, op: Op)
    requires Fresh(t, op)
    ensures KeepsRecords(t, Step(t, op))
  {
    hide Step, Fresh, GrantsForRoles, Living;
    forall r | r in t.roles && t.roles[r].builtin
      ensures r in Step(t, op).roles && Step(t, op).roles[r] == t.roles[r]
      ensures GrantsForRoles(Step(t, op), {r}) == GrantsForRoles(t, {r})
    {
      StepKeepsBuiltin(t, op, r);
    }
    forall u | u in t.users
      ensures u in Step(t, op).users && Step(t, op).users[u].username == t.users[u].username
      ensures t.users[u].deleted ==> Step(t, op).users[u].deleted && !Living(Step(t, op), u)
    {
      StepKeepsUser(t, op, u);
    }
  }

  /** Builtin roles are read-only and tombstones final in every run. */
  lemma {:induction false} RunKeepsRecords(t: Tables, ops: seq<Op>)
    requires AllFresh(t, ops)
    ensures KeepsRecords(t, Run(t, ops))
    decreases |ops|
  {
    if ops != [] {
      StepKeepsRecords(t, ops[0]);
      RunKeepsRecords(Step(t, ops[0]), ops[1..]);
    }
  }

  /** No custom role holds a grant that no route answers to. */
  ghost predicate OnlyLiveGrants(t: Tables) {
    forall p :: p in t.permissions && p.role in t.roles && !t.roles[p.role].builtin ==> Grantable(t, {p.grant})
  }

  lemma StepKeepsLiveGrants(t: Tables, op: Op)
    requires OnlyLiveGrants(t) && Fresh(t, op) && forall p :: p in t.permissions ==> p.role in t.roles
    ensures OnlyLiveGrants(Step(t, op)) && Step(t, op).resources == t.resources
  {
    var t' := Step(t, op);
    forall p | p in t'.permissions && p.role in t'.roles && !t'.roles[p.role].builtin ensures Grantable(t', {p.grant}) {
      if p in t.permissions {
        assert Grantable(t, {p.grant});
      } else {
        assert p.grant in op.grants && Grantable(t, op.grants);
      }
    }
  }

  /** Checked at every write, a custom role's grants stay on served verbs of grantable resources in every run. */
  lemma {:induction false} RunKeepsLiveGrants(t: Tables, ops: seq<Op>)
    requires Valid(t) && AllFresh(t, ops) && OnlyLiveGrants(t)
    ensures OnlyLiveGrants(Run(t, ops))
    decreases |ops|
  {
    if ops != [] {
      StepKeepsValid(t, ops[0]);
      StepKeepsLiveGrants(t, ops[0]);
      RunKeepsLiveGrants(Step(t, ops[0]), ops[1..]);
    }
  }
}
