/** `ansina.opencode.config`: rendering glob lists for a reader that lets the last match win. */
module PermissionRules {

  datatype Action = Allow | Deny

  /** One entry of the rendered dict; entries keep their insertion order. */
  datatype Rule = Rule(glob: string, action: Action)

  const FLOOR := "*"

  function Index(globs: seq<string>, glob: string): (i: nat)
    ensures i <= |globs| && (i < |globs| <==> glob in globs)
    ensures i < |globs| ==> globs[i] == glob
    ensures forall j :: 0 <= j < i ==> globs[j] != glob
  {
    if globs == [] || globs[0] == glob then 0 else 1 + Index(globs[1..], glob)
  }

  function Keys(rules: seq<Rule>): (keys: seq<string>)
    ensures |keys| == |rules| && forall i :: 0 <= i < |keys| ==> keys[i] == rules[i].glob
  {
    seq(|rules|, i requires 0 <= i < |rules| => rules[i].glob)
  }

  /** `rendered[glob] = action`: a key already there keeps its place. */
  function Put(rules: seq<Rule>, glob: string, action: Action): (after: seq<Rule>)
    ensures |after| == |rules| + if glob in Keys(rules) then 0 else 1
    ensures forall i :: 0 <= i < |rules| ==> after[i] == if rules[i].glob == glob
        && i == Index(Keys(rules), glob) then Rule(glob, action) else rules[i]
    ensures glob !in Keys(rules) ==> after[|rules|] == Rule(glob, action)
  {
    var i := Index(Keys(rules), glob);
    if i < |rules| then rules[i := Rule(glob, action)] else rules + [Rule(glob, action)]
  }

  /** Where a glob ends up: the floor first, then the allowlist by first mention, then the rest. */
  function Rank(allowlist: seq<string>, glob: string): nat {
    if glob == FLOOR then 0 else 1 + Index(allowlist, glob)
  }

  /** What the lists intend for a glob that is a key of the dict. */
  function Meant(allowlist: seq<string>, denylist: seq<string>, glob: string): Action {
    if glob in denylist then Deny else if glob in allowlist then Allow else Deny
  }

  /** The dict after all of `allowed` and all of `denied`, within the full allowlist. */
  ghost predicate Rendered(rules: seq<Rule>, allowlist: seq<string>, allowed: seq<string>, denied: seq<string>) {
    && Covers(Keys(rules), allowed, denied)
    && (forall i :: 0 <= i < |rules| ==> rules[i].action == Meant(allowed, denied, rules[i].glob))
    && Placed(Keys(rules), allowlist)
  }

  /** The keys are the floor and every glob mentioned so far. */
  ghost predicate Covers(keys: seq<string>, allowed: seq<string>, denied: seq<string>) {
    forall glob :: glob in keys <==> glob == FLOOR || glob in allowed || glob in denied
  }

  /** Keys are distinct and stand in rank order. */
  ghost predicate Placed(keys: seq<string>, allowlist: seq<string>) {
    && (forall i, j :: 0 <= i < j < |keys| ==> keys[i] != keys[j])
    && (forall i, j :: 0 <= i < j < |keys| ==> Rank(allowlist, keys[i]) <= Rank(allowlist, keys[j]))
  }

  method RenderGlobPermission(allowlist: seq<string>, denylist: seq<string>) returns (rules: seq<Rule>)
    ensures Rendered(rules, allowlist, allowlist, denylist)
  {
    rules := [Rule(FLOOR, Deny)];
    assert Keys(rules)[0] == FLOOR;
    var i := 0;
    while i < |allowlist|
      invariant i <= |allowlist| && Rendered(rules, allowlist, allowlist[..i], [])
    {
      hide Rendered;
      PutAllowed(rules, allowlist, i);
      rules := Put(rules, allowlist[i], Allow);
      i := i + 1;
    }
    assert allowlist[..i] == allowlist;
    i := 0;
    assert denylist[..0] == [];
    while i < |denylist|
      invariant i <= |denylist| && Rendered(rules, allowlist, allowlist, denylist[..i])
    {
      hide Rendered;
      PutDenied(rules, allowlist, denylist, i);
      rules := Put(rules, denylist[i], Deny);
      i := i + 1;
    }
    assert denylist[..i] == denylist;
  }

  lemma PutKeys(rules: seq<Rule>, glob: string, action: Action)
    ensures var keys := Keys(Put(rules, glob, action));
            keys == if glob in Keys(rules) then Keys(rules) else Keys(rules) + [glob]
  {
  }

  /** Putting a glob last keeps the order if nothing before it ranks higher. */
  lemma PutPlaced(rules: seq<Rule>, allowlist: seq<string>, glob: string, action: Action)
    requires Placed(Keys(rules), allowlist)
    requires glob !in Keys(rules) ==> forall i :: 0 <= i < |rules| ==>
        Rank(allowlist, Keys(rules)[i]) <= Rank(allowlist, glob)
    ensures Placed(Keys(Put(rules, glob, action)), allowlist)
  {
    PutKeys(rules, glob, action);
  }

  /** Putting a glob changes the action of that key and of no other. */
  lemma PutAction(rules: seq<Rule>, allowlist: seq<string>, glob: string, action: Action, j: nat)
    requires Placed(Keys(rules), allowlist) && j < |Put(rules, glob, action)|
    ensures var after := Put(rules, glob, action);
            if after[j].glob == glob then after[j].action == action else j < |rules| && after[j] == rules[j]
  {
    assert j < |rules| && rules[j].glob == glob ==> j == Index(Keys(rules), glob);
  }

  lemma NewRank(allowlist: seq<string>, i: nat, earlier: string)
    requires i < |allowlist| && allowlist[i] != FLOOR && allowlist[i] !in allowlist[..i]
    requires earlier == FLOOR || earlier in allowlist[..i]
    ensures Rank(allowlist, earlier) <= Rank(allowlist, allowlist[i])
  {
    if earlier != FLOOR {
      var j :| 0 <= j < i && allowlist[..i][j] == earlier;
      assert allowlist[j] == earlier;
      assert forall k :: 0 <= k < i ==> allowlist[..i][k] == allowlist[k];
    }
  }

  lemma EarlierRanks(keys: seq<string>, allowlist: seq<string>, i: nat)
    requires i < |allowlist| && allowlist[i] !in keys
    requires Covers(keys, allowlist[..i], [])
    ensures forall j :: 0 <= j < |keys| ==> Rank(allowlist, keys[j]) <= Rank(allowlist, allowlist[i])
  {
    assert FLOOR in keys;
    forall j | 0 <= j < |keys| ensures Rank(allowlist, keys[j]) <= Rank(allowlist, allowlist[i]) {
      NewRank(allowlist, i, keys[j]);
    }
  }

  lemma DeniedRanksLast(keys: seq<string>, allowlist: seq<string>, denied: seq<string>, glob: string)
    requires Covers(keys, allowlist, denied) && glob !in keys
    ensures forall j :: 0 <= j < |keys| ==> Rank(allowlist, keys[j]) <= Rank(allowlist, glob)
  {
  }

  lemma CoversOneMore(keys: seq<string>, allowed: seq<string>, denied: seq<string>, glob: string)
    requires Covers(keys, allowed, denied)
    ensures var more := if glob in keys then keys else keys + [glob];
            Covers(more, allowed + [glob], denied) && Covers(more, allowed, denied + [glob])
  {
  }

  lemma PutActions(rules: seq<Rule>, allowlist: seq<string>, allowed: seq<string>, denied: seq<string>, glob: string,
      action: Action,
                   moreAllowed: seq<string>, moreDenied: seq<string>)
    requires Rendered(rules, allowlist, allowed, denied)
    requires if action == Allow then denied == moreDenied == [] && moreAllowed == allowed + [glob]
             else moreAllowed == allowed && moreDenied == denied + [glob]
    ensures var after := Put(rules, glob, action);
            forall j :: 0 <= j < |after| ==> after[j].action == Meant(moreAllowed, moreDenied, after[j].glob)
  {
    hide Placed, Covers;
    var after := Put(rules, glob, action);
    forall j | 0 <= j < |after| ensures after[j].action == Meant(moreAllowed, moreDenied, after[j].glob) {
      PutAction(rules, allowlist, glob, action, j);
    }
  }

  lemma PutAllowed(rules: seq<Rule>, allowlist: seq<string>, i: nat)
    requires i < |allowlist| && Rendered(rules, allowlist, allowlist[..i], [])
    ensures Rendered(Put(rules, allowlist[i], Allow), allowlist, allowlist[..i + 1], [])
  {
    hide Placed, Put, Rank, Covers, Meant;
    var glob := allowlist[i];
    PutKeys(rules, glob, Allow);
    assert allowlist[..i + 1] == allowlist[..i] + [glob];
    CoversOneMore(Keys(rules), allowlist[..i], [], glob);
    if glob !in Keys(rules) {
      EarlierRanks(Keys(rules), allowlist, i);
    }
    PutPlaced(rules, allowlist, glob, Allow);
    PutActions(rules, allowlist, allowlist[..i], [], glob, Allow, allowlist[..i + 1], []);
  }

  lemma PutDenied(rules: seq<Rule>, allowlist: seq<string>, denylist: seq<string>, i: nat)
    requires i < |denylist| && Rendered(rules, allowlist, allowlist, denylist[..i])
    ensures Rendered(Put(rules, denylist[i], Deny), allowlist, allowlist, denylist[..i + 1])
  {
    hide Placed, Put, Rank, Covers, Meant;
    var glob := denylist[i];
    PutKeys(rules, glob, Deny);
    assert denylist[..i + 1] == denylist[..i] + [glob];
    CoversOneMore(Keys(rules), allowlist, denylist[..i], glob);
    if glob !in Keys(rules) {
      DeniedRanksLast(Keys(rules), allowlist, denylist[..i], glob);
    }
    PutPlaced(rules, allowlist, glob, Deny);
    PutActions(rules, allowlist, allowlist, denylist[..i], glob, Deny, allowlist, denylist[..i + 1]);
  }

  /** Which globs match one command. */
  type Matcher = string -> bool

  /** The reader's rule: the last entry that matches decides. */
  function Decide(rules: seq<Rule>, matches: Matcher): (verdict: Action)
  {
    if rules == [] then Deny
    else if matches(rules[|rules| - 1].glob) then rules[|rules| - 1].action
    else Decide(rules[..|rules| - 1], matches)
  }

  /** The documented intent: any denied match denies, else any allowed match allows, else the floor. */
  function Intended(allowlist: seq<string>, denylist: seq<string>, matches: Matcher): Action {
    if exists glob :: glob in denylist && matches(glob) then Deny
    else if exists glob :: glob in allowlist && matches(glob) then Allow
    else Deny
  }

  lemma {:induction false} LastMatch(rules: seq<Rule>, matches: Matcher, some: nat) returns (last: nat)
    requires some < |rules| && matches(rules[some].glob)
    ensures some <= last < |rules| && matches(rules[last].glob) && Decide(rules, matches) == rules[last].action
    ensures forall j :: last < j < |rules| ==> !matches(rules[j].glob)
  {
    var n := |rules| - 1;
    if matches(rules[n].glob) {
      last := n;
    } else {
      last := LastMatch(rules[..n], matches, some);
    }
  }

  /** Every allowed glob comes before every denied one. */
  predicate AllowedComeFirst(allowlist: seq<string>, denylist: seq<string>) {
    forall a, d :: a in allowlist && a !in denylist && d in denylist ==> Rank(allowlist, a) < Rank(allowlist, d)
  }

  lemma PlaceOf(rules: seq<Rule>, allowlist: seq<string>, denylist: seq<string>, glob: string) returns (i: nat)
    requires Rendered(rules, allowlist, allowlist, denylist)
    requires glob == FLOOR || glob in allowlist || glob in denylist
    ensures i < |rules| && rules[i] == Rule(glob, Meant(allowlist, denylist, glob))
  {
    assert glob in Keys(rules);
    i := Index(Keys(rules), glob);
  }

  lemma RuleAt(rules: seq<Rule>, allowlist: seq<string>, denylist: seq<string>, i: nat, j: nat)
    requires Rendered(rules, allowlist, allowlist, denylist) && i <= j < |rules|
    ensures var glob := rules[j].glob;
            && (glob == FLOOR || glob in allowlist || glob in denylist)
            && rules[j].action == Meant(allowlist, denylist, glob)
            && Rank(allowlist, rules[i].glob) <= Rank(allowlist, glob)
  {
    assert Keys(rules)[j] in Keys(rules) && Keys(rules)[i] == rules[i].glob;
  }

  lemma RuleMeansIntent(rules: seq<Rule>, allowlist: seq<string>, denylist: seq<string>, matches: Matcher)
    requires Rendered(rules, allowlist, allowlist, denylist) && AllowedComeFirst(allowlist, denylist) && matches(FLOOR)
    ensures Decide(rules, matches) == Intended(allowlist, denylist, matches)
  {
    hide Rendered, Decide;
    var match_ := FLOOR;
    if d :| d in denylist && matches(d) {
      match_ := d;
    } else if a :| a in allowlist && matches(a) {
      match_ := a;
    }
    var i := PlaceOf(rules, allowlist, denylist, match_);
    var last := LastMatch(rules, matches, i);
    RuleAt(rules, allowlist, denylist, i, last);
  }

  /** The rendered dict means what the lists intend, for every matcher that knows the floor. */
  ghost predicate MeansIntent(rules: seq<Rule>, allowlist: seq<string>, denylist: seq<string>) {
    forall matches: Matcher :: matches(FLOOR) ==> Decide(rules, matches) == Intended(allowlist, denylist, matches)
  }

  lemma SameRank(allowlist: seq<string>, a: string, d: string)
    requires a in allowlist && Rank(allowlist, a) == Rank(allowlist, d)
    ensures a == d
  {
    assert Index(allowlist, a) < |allowlist|;
  }

  /** A command that only the floor, `a` and `d` match is allowed although `d` denies it. */
  lemma DenialOutlived(rules: seq<Rule>, allowlist: seq<string>, denylist: seq<string>, a: string, d: string)
    requires Rendered(rules, allowlist, allowlist, denylist)
    requires a in allowlist && a !in denylist && d in denylist && Rank(allowlist, a) >= Rank(allowlist, d)
    ensures !MeansIntent(rules, allowlist, denylist)
  {
    var matches: Matcher := glob => glob == FLOOR || glob == a || glob == d;
    var i := PlaceOf(rules, allowlist, denylist, a);
    var last := LastMatch(rules, matches, i);
    var winner := rules[last].glob;
    assert Rank(allowlist, a) <= Rank(allowlist, winner);
    if winner != a {
      SameRank(allowlist, a, d);
      assert false;
    }
    assert matches(d) && Intended(allowlist, denylist, matches) == Deny;
  }

  /**
   * It does so exactly when no denied glob was already placed before an allowed one: a
   * reassigned key keeps its first position, so a denial there is outlived by the allowance.
   */
  lemma ExactlyWhenAllowedComeFirst(rules: seq<Rule>, allowlist: seq<string>, denylist: seq<string>)
    requires Rendered(rules, allowlist, allowlist, denylist)
    ensures MeansIntent(rules, allowlist, denylist) <==> AllowedComeFirst(allowlist, denylist)
  {
    if AllowedComeFirst(allowlist, denylist) {
      forall matches: Matcher | matches(FLOOR)
        ensures Decide(rules, matches) == Intended(allowlist, denylist, matches)
      {
        RuleMeansIntent(rules, allowlist, denylist, matches);
      }
    } else {
      var a, d :| a in allowlist && a !in denylist && d in denylist && Rank(allowlist, a) >= Rank(allowlist, d);
      DenialOutlived(rules, allowlist, denylist, a, d);
    }
  }

  /** In particular when no denied glob is the floor or is also allowed. */
  lemma DisjointListsAreFine(allowlist: seq<string>, denylist: seq<string>)
    requires FLOOR !in denylist && forall glob :: glob in denylist ==> glob !in allowlist
    ensures AllowedComeFirst(allowlist, denylist)
  {
  }

  lemma FirstRank(allowlist: seq<string>, glob: string)
    ensures Rank(allowlist, glob) <= Rank(allowlist, FLOOR) <==> glob == FLOOR
  {
  }

  lemma FloorAtFront(keys: seq<string>, allowlist: seq<string>, k: nat)
    requires Placed(keys, allowlist) && k < |keys| && keys[k] == FLOOR
    ensures k == 0
  {
    FirstRank(allowlist, keys[0]);
  }

  /** The floor is the key `*`: it is the first entry, and denies unless the allowlist names it and the denylist not. */
  lemma FloorIsFirst(rules: seq<Rule>, allowlist: seq<string>, denylist: seq<string>)
    requires Rendered(rules, allowlist, allowlist, denylist)
    ensures rules != [] && rules[0].glob == "*"
    ensures rules[0].action == if "*" in allowlist && "*" !in denylist then Allow else Deny
    ensures forall i :: 0 < i < |rules| ==> rules[i].glob in allowlist || rules[i].glob in denylist
  {
    var keys := Keys(rules);
    assert FLOOR in keys;
    var k :| 0 <= k < |keys| && keys[k] == FLOOR;
    FloorAtFront(keys, allowlist, k);
    forall i | 0 < i < |rules| ensures rules[i].glob in allowlist || rules[i].glob in denylist {
      assert keys[i] in keys && keys[0] != keys[i];
    }
  }
}
