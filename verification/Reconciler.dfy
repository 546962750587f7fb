/** `ansina.auth.reconciler`: the boot-time passes over the catalog and the builtin grants. */
module Reconciler {
  import opened Wrappers
  import opened Policy
  import opened RbacTables

  datatype Resource = Resource(description: string, verbs: set<Verb>)

  datatype ResourceSpec = ResourceSpec(name: string, resource: Resource)

  type Catalog = map<string, Resource>

  function Text(slug: RoleSlug): string {
    match slug
    case Read => "read"
    case Write => "write"
    case Maintain => "maintain"
    case Admin => ADMIN
  }

  const BUILTIN_ROLES: seq<RoleSlug> := [Read, Write, Maintain, Admin]

  lemma SlugsDiffer(a: RoleSlug, b: RoleSlug)
    ensures Text(a) == Text(b) ==> a == b
    ensures a in BUILTIN_ROLES
  {
    assert BUILTIN_ROLES[0] == Read && BUILTIN_ROLES[1] == Write && BUILTIN_ROLES[2] == Maintain
        && BUILTIN_ROLES[3] == Admin;
  }

  /** `{spec.name: spec for spec in specs}`. */
  function Wanted(specs: seq<ResourceSpec>): Catalog {
    if specs == [] then map[]
    else var last := specs[|specs| - 1]; Wanted(specs[..|specs| - 1])[last.name := last.resource]
  }

  /** A name is catalogued as its last spec says. */
  lemma {:induction false} WantedIsLast(specs: seq<ResourceSpec>, name: string)
    ensures name in Wanted(specs) <==> exists i :: 0 <= i < |specs| && specs[i].name == name
    ensures forall i ::
              0 <= i < |specs| && specs[i].name == name && (forall j :: i < j < |specs| ==> specs[j].name != name) ==>
                Wanted(specs)[name] == specs[i].resource
  {
    if specs != [] {
      var front := specs[..|specs| - 1];
      WantedIsLast(front, name);
      assert forall i :: 0 <= i < |front| ==> front[i] == specs[i];
      if specs[|specs| - 1].name != name && name in Wanted(specs) {
        var i :| 0 <= i < |front| && front[i].name == name;
        assert specs[i].name == name;
      }
    }
  }

  /** What the policy gives a builtin role: its verbs, cut to the served ones. */
  function Desired(slug: RoleSlug, catalog: Catalog): set<Grant> {
    set n, v | n in catalog && v in PermittedVerbs(slug, n) * catalog[n].verbs :: Grant(n, v)
  }

  /** The builtin roles among the first `k` of the list. */
  ghost predicate Governed(roles: map<Id, Role>, role: Id, slug: RoleSlug, k: nat)
    requires k <= |BUILTIN_ROLES|
  {
    role in roles && roles[role].slug == Text(slug) && slug in BUILTIN_ROLES[..k]
  }

  ghost predicate InFirst(roles: map<Id, Role>, role: Id, k: nat)
    requires k <= |BUILTIN_ROLES|
  {
    exists slug :: Governed(roles, role, slug, k)
  }

  /** Grants follow the policy for the first `k` builtin roles and are `before`'s for all other roles. */
  ghost predicate Follows(roles: map<Id, Role>, catalog: Catalog, before: set<Permission>, after: set<Permission>,
      k: nat)
    requires k <= |BUILTIN_ROLES|
  {
    && (forall role, slug :: Governed(roles, role, slug, k) ==> GrantsOfRole(after, role) == Desired(slug, catalog))
    && (forall p: Permission :: !InFirst(roles, p.role, k) ==> (p in after <==> p in before))
  }

  function GrantsOfRole(permissions: set<Permission>, role: Id): set<Grant> {
    set p | p in permissions && p.role == role :: p.grant
  }

  lemma GrantOfRole(permissions: set<Permission>, role: Id, g: Grant)
    ensures g in GrantsOfRole(permissions, role) <==> Permission(role, g) in permissions
  {
    if g in GrantsOfRole(permissions, role) {
      var p :| p in permissions && p.role == role && p.grant == g;
      assert p == Permission(role, g);
    }
  }

  ghost predicate UniqueSlugs(roles: map<Id, Role>) {
    forall r, s :: r in roles && s in roles && roles[r].slug == roles[s].slug ==> r == s
  }

  ghost predicate HasSlug(roles: map<Id, Role>, slug: string) {
    exists r :: r in roles && roles[r].slug == slug
  }

  ghost predicate Seeded(roles: map<Id, Role>) {
    forall slug: RoleSlug :: HasSlug(roles, Text(slug))
  }

  lemma PartlySame(roles: map<Id, Role>, catalog: Catalog, p: set<Permission>, q: set<Permission>, r: set<Permission>)
    requires Follows(roles, catalog, p, q, 4) && Follows(roles, catalog, p, r, 4)
    ensures q <= r
  {
    forall x | x in q ensures x in r {
      if slug :| Governed(roles, x.role, slug, 4) {
        GrantOfRole(q, x.role, x.grant);
        GrantOfRole(r, x.role, x.grant);
        assert x == Permission(x.role, x.grant);
      }
    }
  }

  /** The target is one set of grants; a pass that starts from it leaves it alone. */
  lemma TargetIsUnique(roles: map<Id, Role>, catalog: Catalog, p: set<Permission>, q: set<Permission>,
      r: set<Permission>)
    requires Follows(roles, catalog, p, q, 4)
    ensures Follows(roles, catalog, p, r, 4) ==> q == r
    ensures Follows(roles, catalog, q, r, 4) ==> q == r
  {
    if Follows(roles, catalog, p, r, 4) {
      PartlySame(roles, catalog, p, q, r);
      PartlySame(roles, catalog, p, r, q);
    }
    if Follows(roles, catalog, q, r, 4) {
      assert Follows(roles, catalog, p, r, 4);
      PartlySame(roles, catalog, p, q, r);
      PartlySame(roles, catalog, p, r, q);
    }
  }

  /** Every builtin role holds exactly what the policy gives it. */
  ghost predicate Settled(roles: map<Id, Role>, catalog: Catalog, permissions: set<Permission>) {
    Seeded(roles) && forall role, slug :: Governed(roles, role, slug, 4) ==>
        GrantsOfRole(permissions, role) == Desired(slug, catalog)
  }

  lemma FollowsNone(roles: map<Id, Role>, catalog: Catalog, permissions: set<Permission>)
    ensures Follows(roles, catalog, permissions, permissions, 0)
  {
  }

  lemma FollowsOneMore(roles: map<Id, Role>, catalog: Catalog, before: set<Permission>,
                       partly: set<Permission>, after: set<Permission>, role: Id, k: nat)
    requires k < |BUILTIN_ROLES| && UniqueSlugs(roles) && role in roles && roles[role].slug == Text(BUILTIN_ROLES[k])
    requires Follows(roles, catalog, before, partly, k)
    requires GrantsOfRole(after, role) == Desired(BUILTIN_ROLES[k], catalog)
    requires forall p: Permission :: p.role != role ==> (p in after <==> p in partly)
    ensures Follows(roles, catalog, before, after, k + 1)
  {
    assert BUILTIN_ROLES[..k + 1] == BUILTIN_ROLES[..k] + [BUILTIN_ROLES[k]];
    forall other, slug | Governed(roles, other, slug, k + 1)
        ensures GrantsOfRole(after, other) == Desired(slug, catalog) {
      SlugsDiffer(slug, BUILTIN_ROLES[k]);
      if other != role {
        assert Governed(roles, other, slug, k);
        forall g ensures g in GrantsOfRole(after, other) <==> g in GrantsOfRole(partly, other) {
          GrantOfRole(after, other, g);
          GrantOfRole(partly, other, g);
        }
      }
    }
    assert Governed(roles, role, BUILTIN_ROLES[k], k + 1);
    forall p: Permission | !InFirst(roles, p.role, k + 1) ensures p in after <==> p in before {
      assert p.role != role;
      assert forall slug :: Governed(roles, p.role, slug, k) ==> Governed(roles, p.role, slug, k + 1);
    }
  }

  lemma FollowsSettles(roles: map<Id, Role>, catalog: Catalog, before: set<Permission>, after: set<Permission>)
    requires Seeded(roles) && Follows(roles, catalog, before, after, 4)
    ensures Settled(roles, catalog, after)
    ensures Settled(roles, catalog, before) ==> after == before
  {
    if Settled(roles, catalog, before) {
      assert Follows(roles, catalog, before, before, 4);
      TargetIsUnique(roles, catalog, before, after, before);
    }
  }

  /** The documented scope: roles without the `builtin` flag keep their grants. */
  ghost predicate KeepsCustom(roles: map<Id, Role>, before: set<Permission>, after: set<Permission>) {
    forall r :: r in roles && !roles[r].builtin ==> GrantsOfRole(after, r) == GrantsOfRole(before, r)
  }

  predicate BuiltinSlug(slug: string) {
    slug in {Text(Read), Text(Write), Text(Maintain), Text(Admin)}
  }

  /** No custom role has one of the four builtin slugs. */
  predicate NoImpostor(roles: map<Id, Role>) {
    forall r :: r in roles && !roles[r].builtin ==> !BuiltinSlug(roles[r].slug)
  }

  lemma UngovernedKeepsGrants(roles: map<Id, Role>, catalog: Catalog, before: set<Permission>, after: set<Permission>,
      role: Id)
    requires role in roles && !BuiltinSlug(roles[role].slug) && Follows(roles, catalog, before, after, 4)
    ensures GrantsOfRole(after, role) == GrantsOfRole(before, role)
  {
    assert !InFirst(roles, role, 4);
    forall g ensures g in GrantsOfRole(after, role) <==> g in GrantsOfRole(before, role) {
      GrantOfRole(after, role, g);
      GrantOfRole(before, role, g);
    }
  }

  /** With nothing catalogued, a pass revokes whatever a role with a builtin slug holds. */
  lemma EmptyCatalogRevokes(roles: map<Id, Role>, role: Id, g: Grant)
    requires role in roles && BuiltinSlug(roles[role].slug)
    ensures Follows(roles, map[], {Permission(role, g)}, {}, 4)
  {
    var slug :| Text(slug) == roles[role].slug;
    SlugsDiffer(slug, slug);
    assert BUILTIN_ROLES[..4] == BUILTIN_ROLES;
    assert Governed(roles, role, slug, 4);
    forall other, s | Governed(roles, other, s, 4) ensures GrantsOfRole({}, other) == Desired(s, map[]) {
      assert GrantsOfRole({}, other) == {} == Desired(s, map[]);
    }
  }

  /**
   * The pass goes by slug where its documentation goes by the `builtin` flag: it leaves
   * every custom role's grants alone, for all catalogs and grants, if and only if no
   * custom role has a builtin slug.
   */
  lemma ScopeHoldsExactlyWithoutImpostor(roles: map<Id, Role>)
    ensures (forall catalog: Catalog, before, after ::
               Follows(roles, catalog, before, after, 4) ==> KeepsCustom(roles, before, after))
       <==> NoImpostor(roles)
  {
    if NoImpostor(roles) {
      forall catalog: Catalog, before, after | Follows(roles, catalog, before, after, 4)
        ensures KeepsCustom(roles, before, after)
      {
        forall r | r in roles && !roles[r].builtin ensures GrantsOfRole(after, r) == GrantsOfRole(before, r) {
          UngovernedKeepsGrants(roles, catalog, before, after, r);
        }
      }
    } else {
      var r :| r in roles && !roles[r].builtin && BuiltinSlug(roles[r].slug);
      var g := Grant("x", GET);
      EmptyCatalogRevokes(roles, r, g);
      GrantOfRole({Permission(r, g)}, r, g);
      GrantOfRole({}, r, g);
      assert !KeepsCustom(roles, {Permission(r, g)}, {});
    }
  }

  /** A state that fails: a custom role called "read" loses its grant to post notes. */
  lemma ImpostorLosesGrants(after: set<Permission>)
    requires Follows(IMPOSTORS, map["notes" := Resource("", {GET, POST})], {Permission("1", Grant("notes", POST))},
      after, 4)
    ensures UniqueSlugs(IMPOSTORS) && !IMPOSTORS["1"].builtin
    ensures Permission("1", Grant("notes", POST)) !in after && Permission("1", Grant("notes", GET)) in after
  {
    var catalog: Catalog := map["notes" := Resource("", {GET, POST})];
    SlugsDiffer(Read, Read);
    assert BUILTIN_ROLES[..4] == BUILTIN_ROLES;
    assert Governed(IMPOSTORS, "1", Read, 4);
    GrantOfRole(after, "1", Grant("notes", POST));
    GrantOfRole(after, "1", Grant("notes", GET));
    assert "notes"[0] == 'n' && "me."[0] == 'm' && "auth."[0] == 'a';
    assert PermittedVerbs(Read, "notes") == {GET};
    assert "notes" in catalog && GET in PermittedVerbs(Read, "notes") * catalog["notes"].verbs;
  }

  const IMPOSTORS: map<Id, Role> := map["1" := Role("read", false), "2" := Role("write", true),
    "3" := Role("maintain", true), "4" := Role("admin", true)]

  class Reconciler {
    var resources: Catalog
    var roles: map<Id, Role>
    var permissions: set<Permission>

    constructor (resources: Catalog, roles: map<Id, Role>, permissions: set<Permission>)
      ensures this.resources == resources && this.roles == roles && this.permissions == permissions
    {
      this.resources, this.roles, this.permissions := resources, roles, permissions;
    }

    /** Deleting a resource takes every grant on it along. */
    method DeleteResource(name: string)
      modifies this`resources, this`permissions
      ensures resources == old(resources) - {name}
      ensures permissions == set p | p in old(permissions) && p.grant.resource != name
    {
      permissions := set p | p in permissions && p.grant.resource != name;
      resources := resources - {name};
    }

    method SyncResources(specs: seq<ResourceSpec>)
      requires forall p :: p in permissions ==> p.grant.resource in resources
      modifies this`resources, this`permissions
      ensures resources == Wanted(specs)
      ensures permissions == set p | p in old(permissions) && p.grant.resource in Wanted(specs)
      ensures old(resources) == Wanted(specs) ==> permissions == old(permissions)
    {
      var wanted: Catalog := map[];
      var i := 0;
      while i < |specs|
        invariant i <= |specs| && wanted == Wanted(specs[..i])
      {
        assert specs[..i + 1][..i] == specs[..i];
        wanted := wanted[specs[i].name := specs[i].resource];
        i := i + 1;
      }
      assert specs[..i] == specs;
      var names := wanted.Keys;
      while names != {}
        invariant names <= wanted.Keys && permissions == old(permissions)
        invariant resources.Keys == old(resources).Keys + (wanted.Keys - names)
        invariant forall n :: n in wanted && n !in names ==> resources[n] == wanted[n]
      {
        var name :| name in names;
        resources := resources[name := wanted[name]];
        names := names - {name};
      }
      var stale := set name | name in resources && name !in wanted;
      while stale != {}
        invariant stale == resources.Keys - wanted.Keys && wanted.Keys <= resources.Keys
        invariant forall n :: n in wanted ==> resources[n] == wanted[n]
        invariant permissions == set p | p in old(permissions) && p.grant.resource in resources
      {
        var name :| name in stale;
        DeleteResource(name);
        stale := stale - {name};
      }
    }

    method EnsureBuiltin(slug: string, newId: Id) returns (role: Id)
      requires UniqueSlugs(roles) && newId !in roles
      modifies this`roles
      ensures UniqueSlugs(roles) && role in roles && roles[role].slug == slug
      ensures roles == old(roles) || (role == newId && roles == old(roles)[newId := Role(slug, true)])
      ensures old(HasSlug(roles, slug)) ==> roles == old(roles)
    {
      var existing := set r | r in roles && roles[r].slug == slug;
      if existing != {} {
        role :| role in existing;
      } else {
        assert forall r :: r in roles && roles[r].slug == slug ==> r in existing;
        roles := roles[newId := Role(slug, true)];
        role := newId;
      }
    }

    /** Brings one role's grants to `desired`, row by row, and touches no other role. */
    method Converge(role: Id, desired: set<Grant>)
      modifies this`permissions
      ensures GrantsOfRole(permissions, role) == desired
      ensures forall p: Permission :: p.role != role ==> (p in permissions <==> p in old(permissions))
    {
      var current := GrantsOfRole(permissions, role);
      var missing := desired - current;
      while missing != {}
        invariant missing <= desired - current
        invariant forall p :: p in permissions <==>
            p in old(permissions) || (p.role == role && p.grant in desired - current - missing)
      {
        var g :| g in missing;
        permissions := permissions + {Permission(role, g)};
        missing := missing - {g};
      }
      ghost var granted := permissions;
      var extra := current - desired;
      while extra != {}
        invariant extra <= current - desired
        invariant forall p ::
                    p in permissions <==> p in granted && !(p.role == role && p.grant in current - desired - extra)
      {
        var g :| g in extra;
        permissions := permissions - {Permission(role, g)};
        extra := extra - {g};
      }
      forall g ensures g in GrantsOfRole(permissions, role) <==> g in desired {
        GrantOfRole(permissions, role, g);
        GrantOfRole(old(permissions), role, g);
      }
    }

    /** `newIds` are the fresh ids given to builtin roles that are missing. */
    method EnsureBuiltins(newIds: seq<Id>) returns (ids: seq<Id>)
      requires UniqueSlugs(roles) && |newIds| == |BUILTIN_ROLES|
      requires forall i :: 0 <= i < |newIds| ==> newIds[i] !in roles
      requires forall i, j :: 0 <= i < j < |newIds| ==> newIds[i] != newIds[j]
      modifies this`roles
      ensures UniqueSlugs(roles) && Seeded(roles)
      ensures forall r :: r in old(roles) ==> r in roles && roles[r] == old(roles)[r]
      ensures forall r :: r in roles && r !in old(roles) ==> roles[r].builtin
      ensures |ids| == |BUILTIN_ROLES|
      ensures forall j :: 0 <= j < |ids| ==> ids[j] in roles && roles[ids[j]].slug == Text(BUILTIN_ROLES[j])
      ensures old(Seeded(roles)) ==> roles == old(roles)
    {
      ids := [];
      var i := 0;
      while i < |BUILTIN_ROLES|
        invariant i <= |BUILTIN_ROLES| && |ids| == i && UniqueSlugs(roles)
        invariant forall j :: 0 <= j < i ==> ids[j] in roles && roles[ids[j]].slug == Text(BUILTIN_ROLES[j])
        invariant forall j :: i <= j < |newIds| ==> newIds[j] !in roles
        invariant forall r :: r in old(roles) ==> r in roles && roles[r] == old(roles)[r]
        invariant forall r :: r in roles && r !in old(roles) ==> roles[r].builtin
        invariant old(Seeded(roles)) ==> roles == old(roles)
      {
        assert old(Seeded(roles)) ==> HasSlug(roles, Text(BUILTIN_ROLES[i]));
        var role := EnsureBuiltin(Text(BUILTIN_ROLES[i]), newIds[i]);
        ids, i := ids + [role], i + 1;
      }
      forall slug: RoleSlug ensures HasSlug(roles, Text(slug)) {
        SlugsDiffer(slug, slug);
        var j :| 0 <= j < |BUILTIN_ROLES| && BUILTIN_ROLES[j] == slug;
        assert ids[j] in roles;
      }
    }

    /** Every builtin role in turn; `ids` are the roles of the four slugs. */
    method ReconcileGrants(ids: seq<Id>)
      requires UniqueSlugs(roles) && |ids| == |BUILTIN_ROLES|
      requires forall j :: 0 <= j < |ids| ==> ids[j] in roles && roles[ids[j]].slug == Text(BUILTIN_ROLES[j])
      modifies this`permissions
      ensures Follows(roles, resources, old(permissions), permissions, 4)
    {
      FollowsNone(roles, resources, permissions);
      hide Follows, Desired, GrantsOfRole, UniqueSlugs;
      var i := 0;
      while i < |BUILTIN_ROLES|
        invariant i <= |BUILTIN_ROLES|
        invariant Follows(roles, resources, old(permissions), permissions, i)
      {
        ghost var partly := permissions;
        Converge(ids[i], Desired(BUILTIN_ROLES[i], resources));
        FollowsOneMore(roles, resources, old(permissions), partly, permissions, ids[i], i);
        i := i + 1;
      }
    }

    method ReconcileBuiltinRoles(newIds: seq<Id>)
      requires UniqueSlugs(roles) && |newIds| == |BUILTIN_ROLES|
      requires forall i :: 0 <= i < |newIds| ==> newIds[i] !in roles
      requires forall i, j :: 0 <= i < j < |newIds| ==> newIds[i] != newIds[j]
      modifies this`roles, this`permissions
      ensures UniqueSlugs(roles) && Seeded(roles)
      ensures forall r :: r in old(roles) ==> r in roles && roles[r] == old(roles)[r]
      ensures forall r :: r in roles && r !in old(roles) ==> roles[r].builtin
      ensures Follows(roles, resources, old(permissions), permissions, 4)
      ensures old(Seeded(roles)) ==> roles == old(roles)
      ensures old(Settled(roles, resources, permissions)) ==> permissions == old(permissions)
      ensures Settled(roles, resources, permissions)
    {
      var ids := EnsureBuiltins(newIds);
      ReconcileGrants(ids);
      FollowsSettles(roles, resources, old(permissions), permissions);
      assert old(Settled(roles, resources, permissions)) ==> old(Seeded(roles));
      hide Follows, UniqueSlugs, Seeded, Settled;
    }

    /**
     * Both passes, as every boot runs them: builtin grants become the policy cut to the
     * served verbs, every other role keeps exactly its grants on surviving resources, and
     * a second boot with the same specs changes nothing.
     */
    method Boot(specs: seq<ResourceSpec>, newIds: seq<Id>)
      requires UniqueSlugs(roles) && |newIds| == |BUILTIN_ROLES|
      requires forall p :: p in permissions ==> p.grant.resource in resources
      requires forall i :: 0 <= i < |newIds| ==> newIds[i] !in roles
      requires forall i, j :: 0 <= i < j < |newIds| ==> newIds[i] != newIds[j]
      modifies this
      ensures resources == Wanted(specs) && Settled(roles, Wanted(specs), permissions)
      ensures forall p: Permission :: !InFirst(roles, p.role, 4) ==>
                (p in permissions <==> p in old(permissions) && p.grant.resource in Wanted(specs))
      ensures old(resources == Wanted(specs) && Settled(roles, resources, permissions)) ==>
                roles == old(roles) && permissions == old(permissions)
    {
      SyncResources(specs);
      ReconcileBuiltinRoles(newIds);
    }
  }

  /** What a role is called, and who holds what after the pass, in the catalog's and the policy's own terms. */
  lemma SettledMeans(roles: map<Id, Role>, catalog: Catalog, permissions: set<Permission>, role: Id, slug: RoleSlug,
      resource: string, verb: Verb)
    requires Settled(roles, catalog, permissions) && role in roles
    requires roles[role].slug == match slug
               case Read => "read" case Write => "write" case Maintain => "maintain" case Admin => "admin"
    ensures Permission(role, Grant(resource, verb)) in permissions <==>
              resource in catalog && verb in catalog[resource].verbs && verb in PermittedVerbs(slug, resource)
  {
    SlugsDiffer(slug, slug);
    assert BUILTIN_ROLES[..4] == BUILTIN_ROLES;
    assert Governed(roles, role, slug, 4);
    GrantOfRole(permissions, role, Grant(resource, verb));
  }

  /** The names the pass goes by, and that every one of them has its role afterwards. */
  lemma SettledHasBuiltins(roles: map<Id, Role>, catalog: Catalog, permissions: set<Permission>, slug: string)
    requires Settled(roles, catalog, permissions)
    ensures BuiltinSlug(slug) <==> slug == "read" || slug == "write" || slug == "maintain" || slug == "admin"
    ensures BuiltinSlug(slug) ==> exists r :: r in roles && roles[r].slug == slug
  {
    assert HasSlug(roles, Text(Read)) && HasSlug(roles, Text(Write)) && HasSlug(roles, Text(Maintain))
        && HasSlug(roles, Text(Admin));
  }
}
