/** How far a boot's pass over the builtin roles reaches, once the management routes have run. */
module BootScope {
  import opened RbacTables
  import Rbac
  import Reconciler

  /** Each of the four slugs belongs to a builtin role, as it does after any boot on a table without impostors. */
  ghost predicate BuiltinSeeded(roles: map<Id, Role>) {
    forall slug: string :: Reconciler.BuiltinSlug(slug) ==> SeededBy(roles, slug)
  }

  ghost predicate SeededBy(roles: map<Id, Role>, slug: string) {
    exists r :: r in roles && roles[r].slug == slug && roles[r].builtin
  }

  /** The first boot seeds them. */
  lemma BootSeeds(before: map<Id, Role>, after: map<Id, Role>)
    requires Reconciler.NoImpostor(before) && Reconciler.Seeded(after)
    requires forall r :: r in before ==> r in after && after[r] == before[r]
    requires forall r :: r in after && r !in before ==> after[r].builtin
    ensures BuiltinSeeded(after)
  {
    forall slug: string | Reconciler.BuiltinSlug(slug) ensures SeededBy(after, slug) {
      var s :| Reconciler.Text(s) == slug;
      assert Reconciler.HasSlug(after, Reconciler.Text(s));
      var r :| r in after && after[r].slug == slug;
      assert after[r].builtin;
    }
  }

  /** From then on a new role with such a slug is a duplicate, and builtin roles stay: no impostor appears. */
  lemma RunKeepsScope(t: Tables, ops: seq<Rbac.Op>)
    requires Valid(t) && Rbac.AllFresh(t, ops) && BuiltinSeeded(t.roles)
    ensures Valid(Rbac.Run(t, ops)) && BuiltinSeeded(Rbac.Run(t, ops).roles)
    ensures Reconciler.NoImpostor(Rbac.Run(t, ops).roles)
  {
    var end := Rbac.Run(t, ops);
    RunKeepsValid(t, ops);
    Rbac.RunKeepsRecords(t, ops);
    forall slug: string | Reconciler.BuiltinSlug(slug) ensures SeededBy(end.roles, slug) {
      assert SeededBy(t.roles, slug);
      var r :| r in t.roles && t.roles[r].slug == slug && t.roles[r].builtin;
      assert r in end.roles && end.roles[r] == t.roles[r];
    }
    forall r | r in end.roles && Reconciler.BuiltinSlug(end.roles[r].slug) ensures end.roles[r].builtin {
      assert SeededBy(end.roles, end.roles[r].slug);
    }
  }

  lemma {:induction false} RunKeepsValid(t: Tables, ops: seq<Rbac.Op>)
    requires Valid(t) && Rbac.AllFresh(t, ops)
    ensures Valid(Rbac.Run(t, ops))
    decreases |ops|
  {
    if ops != [] {
      Rbac.StepKeepsValid(t, ops[0]);
      RunKeepsValid(Rbac.Step(t, ops[0]), ops[1..]);
    }
  }

  /** After any such run the next boot's pass leaves every custom role's grants alone. */
  lemma BootKeepsCustomGrants(t: Tables, ops: seq<Rbac.Op>, catalog: Reconciler.Catalog, after: set<Permission>)
    requires Valid(t) && Rbac.AllFresh(t, ops) && BuiltinSeeded(t.roles)
    requires Reconciler.Follows(Rbac.Run(t, ops).roles, catalog, Rbac.Run(t, ops).permissions, after, 4)
    ensures Reconciler.KeepsCustom(Rbac.Run(t, ops).roles, Rbac.Run(t, ops).permissions, after)
  {
    RunKeepsScope(t, ops);
    Reconciler.ScopeHoldsExactlyWithoutImpostor(Rbac.Run(t, ops).roles);
  }
}
