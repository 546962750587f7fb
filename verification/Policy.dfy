/** `ansina.auth.policy`: the fixed builtin policy. */
module Policy {

  datatype Verb = GET | POST | PUT | PATCH | DELETE

  const ALL_VERBS: set<Verb> := {GET, POST, PUT, PATCH, DELETE}

  datatype RoleSlug = Read | Write | Maintain | Admin

  datatype PolicyClass = Ordinary | Auth | Self

  predicate IsSensitiveResource(resource: string) {
    "auth." <= resource
  }

  predicate IsSelfResource(resource: string) {
    "me." <= resource
  }

  predicate IsGrantable(resource: string) {
    !IsSelfResource(resource)
  }

  function ClassOf(resource: string): PolicyClass {
    if IsSelfResource(resource) then Self
    else if IsSensitiveResource(resource) then Auth
    else Ordinary
  }

  function PermittedVerbs(role: RoleSlug, resource: string): set<Verb> {
    if IsSelfResource(resource) then ALL_VERBS
    else if IsSensitiveResource(resource) && role != Maintain && role != Admin then {}
    else if role == Read then {GET}
    else if role == Write then {GET, POST, PUT, PATCH}
    else ALL_VERBS
  }

  /** Self resources and auth resources have no name in common. */
  lemma ClassesAreApart(a: string)
    ensures !(IsSelfResource(a) && IsSensitiveResource(a))
  {
    assert IsSelfResource(a) ==> a[0] == "me."[0] == 'm';
    assert IsSensitiveResource(a) ==> a[0] == "auth."[0] == 'a';
  }

  /**
   * Two resources of one class are open to every role in the same way, and two that are
   * open to every role in the same way are of one class. Each builtin role may do what the
   * one below it may, the last two the same; and the resources no custom role can be
   * granted are those everybody has anyway.
   */
  lemma ClassDecidesVerbs(a: string, b: string)
    ensures ClassOf(a) == ClassOf(b) <==> forall role: RoleSlug :: PermittedVerbs(role, a) == PermittedVerbs(role, b)
    ensures PermittedVerbs(Read, a) <= PermittedVerbs(Write, a) <= PermittedVerbs(Maintain, a)
    ensures PermittedVerbs(Maintain, a) == PermittedVerbs(Admin, a)
    ensures !IsGrantable(a) <==> forall role: RoleSlug :: PermittedVerbs(role, a) == ALL_VERBS
    ensures PermittedVerbs(Read, a) == {} <==> IsSensitiveResource(a)
  {
    ClassesAreApart(a);
    ClassesAreApart(b);
    assert GET in PermittedVerbs(Read, a) <==> ClassOf(a) != Auth;
    assert GET in PermittedVerbs(Read, b) <==> ClassOf(b) != Auth;
    assert DELETE in PermittedVerbs(Read, a) <==> ClassOf(a) == Self;
    assert DELETE in PermittedVerbs(Read, b) <==> ClassOf(b) == Self;
  }

  function Rank(role: RoleSlug): nat {
    match role
    case Read => 0
    case Write => 1
    case Maintain => 2
    case Admin => 3
  }

  /** The lowest rank a verb asks for on a resource that is neither one's own nor the auth system's. */
  function Needed(verb: Verb): nat {
    match verb
    case GET => 0
    case DELETE => 2
    case _ => 1
  }

  /**
   * The policy as thresholds: what is one's own is open to every role, the auth system to the two
   * upper roles, and elsewhere reading takes the lowest role, writing the next and deleting the third.
   */
  lemma VerbNeedsRank(role: RoleSlug, verb: Verb, resource: string)
    ensures "me." <= resource ==> verb in PermittedVerbs(role, resource)
    ensures "auth." <= resource ==> (verb in PermittedVerbs(role, resource) <==> Rank(role) >= 2)
    ensures !("me." <= resource) && !("auth." <= resource) ==>
              (verb in PermittedVerbs(role, resource) <==> Rank(role) >= Needed(verb))
  {
    ClassesAreApart(resource);
    match role { case Read => case Write => case Maintain => case Admin => }
    match verb { case GET => case POST => case PUT => case PATCH => case DELETE => }
  }
}
