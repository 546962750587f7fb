/** `ansina.logging.redaction`: registered literals, then secret shapes. */
module Redaction {
  import opened Wrappers
  import opened Text
  import opened Masking

  const MIN_SECRET_LENGTH := 8

  /** One regex match: where it lies in the text, and the spans of its value groups. */
  datatype Match = Match(start: nat, end: nat, groups: seq<Span>)

  /** A pattern of the regex layer: for each text, the matches it finds. */
  type Pattern = string -> seq<Match>

  /** Matches are found left to right and apart; a match's value groups lie inside it, in order and apart. */
  predicate OrderedMatches(matches: seq<Match>, from: nat, to: nat) {
    if matches == [] then from <= to
    else from <= matches[0].start && Ordered(matches[0].groups, matches[0].start, matches[0].end)
         && OrderedMatches(matches[1..], matches[0].end, to)
  }

  ghost predicate FindsOrdered(pattern: Pattern) {
    forall text: string :: OrderedMatches(pattern(text), 0, |text|)
  }

  function AllGroups(matches: seq<Match>): seq<Span> {
    if matches == [] then [] else matches[0].groups + AllGroups(matches[1..])
  }

  lemma {:induction false} GroupsChain(a: seq<Span>, b: seq<Span>, from: nat, middle: nat, to: nat)
    requires Ordered(a, from, middle) && Ordered(b, middle, to)
    ensures Ordered(a + b, from, to)
    decreases |a|
  {
    OrderedEnds(a, from, middle);
    OrderedEnds(b, middle, to);
    if a == [] {
      assert a + b == b;
      Loosen(b, middle, from, to);
    } else {
      GroupsChain(a[1..], b, a[0].end, middle, to);
      assert (a + b)[1..] == a[1..] + b;
    }
  }

  lemma {:induction false} MatchesEnd(matches: seq<Match>, from: nat, to: nat)
    requires OrderedMatches(matches, from, to)
    ensures Ordered(AllGroups(matches), from, to) && from <= to
    decreases |matches|
  {
    if matches != [] {
      var m := matches[0];
      MatchesEnd(matches[1..], m.end, to);
      GroupsChain(m.groups, AllGroups(matches[1..]), m.start, m.end, to);
      OrderedEnds(m.groups, m.start, m.end);
      Loosen(AllGroups(matches), m.start, from, to);
    }
  }

  /** What one pattern does to a text: every value group of every match is masked at once. */
  function Sub(pattern: Pattern, text: string): string
    requires OrderedMatches(pattern(text), 0, |text|)
  {
    MatchesEnd(pattern(text), 0, |text|);
    Mask(text, AllGroups(pattern(text)), 0)
  }

  function Literals(text: string, secrets: seq<string>): string
    requires "" !in secrets
    decreases |secrets|
  {
    if secrets == [] then text else Literals(Replace(text, secrets[0]), secrets[1..])
  }

  ghost function Shapes(text: string, patterns: seq<Pattern>): string
    requires forall i :: 0 <= i < |patterns| ==> FindsOrdered(patterns[i])
    decreases |patterns|
  {
    assert patterns != [] ==> FindsOrdered(patterns[0]);
    if patterns == [] then text else Shapes(Sub(patterns[0], text), patterns[1..])
  }

  ghost function Redacted(text: string, secrets: seq<string>, patterns: seq<Pattern>): string
    requires "" !in secrets && forall i :: 0 <= i < |patterns| ==> FindsOrdered(patterns[i])
  {
    Shapes(Literals(text, secrets), patterns)
  }

  lemma {:induction false} LiteralsKeepAbsent(text: string, secrets: seq<string>, secret: string)
    requires "" !in secrets && Clean(secret) && !Occurs(secret, text)
    ensures !Occurs(secret, Literals(text, secrets))
    decreases |secrets|
  {
    if secrets != [] {
      MaskKeepsAbsent(secret, text, Hits(text, secrets[0], 0));
      LiteralsKeepAbsent(Replace(text, secrets[0]), secrets[1..], secret);
    }
  }

  lemma {:induction false} LiteralsRemove(text: string, secrets: seq<string>, secret: string)
    requires "" !in secrets && Clean(secret) && secret in secrets
    ensures !Occurs(secret, Literals(text, secrets))
    decreases |secrets|
  {
    if secrets[0] == secret {
      ReplaceRemoves(text, secret);
      LiteralsKeepAbsent(Replace(text, secret), secrets[1..], secret);
    } else {
      LiteralsRemove(Replace(text, secrets[0]), secrets[1..], secret);
    }
  }

  lemma {:induction false} ShapesKeepAbsent(text: string, patterns: seq<Pattern>, secret: string)
    requires forall i :: 0 <= i < |patterns| ==> FindsOrdered(patterns[i])
    requires Clean(secret) && !Occurs(secret, text)
    ensures !Occurs(secret, Shapes(text, patterns))
    decreases |patterns|
  {
    if patterns != [] {
      var found := patterns[0](text);
      assert OrderedMatches(found, 0, |text|);
      MatchesEnd(found, 0, |text|);
      MaskKeepsAbsent(secret, text, AllGroups(found));
      ShapesKeepAbsent(Sub(patterns[0], text), patterns[1..], secret);
    }
  }

  /** A clean registered secret is nowhere in what `redact` returns, in whatever order and around whatever matches. */
  lemma SecretIsGone(text: string, secrets: seq<string>, patterns: seq<Pattern>, secret: string)
    requires "" !in secrets && forall i :: 0 <= i < |patterns| ==> FindsOrdered(patterns[i])
    requires Clean(secret) && secret in secrets
    ensures !Occurs(secret, Redacted(text, secrets, patterns))
  {
    LiteralsRemove(text, secrets, secret);
    ShapesKeepAbsent(Literals(text, secrets), patterns, secret);
  }

  // ----- what the pattern layer does to a text -----

  /** The value groups of all matches, in order: those of the matches before, then those of the last. */
  lemma {:induction false} GroupsOfAll(matches: seq<Match>, last: Match)
    ensures AllGroups([]) == [] && AllGroups(matches + [last]) == AllGroups(matches) + last.groups
    decreases |matches|
  {
    if matches == [] {
      assert [last][1..] == [] && matches + [last] == [last];
    } else {
      GroupsOfAll(matches[1..], last);
      assert (matches + [last])[1..] == matches[1..] + [last];
    }
  }

  lemma FindsHere(pattern: Pattern, text: string)
    requires FindsOrdered(pattern)
    ensures OrderedMatches(pattern(text), 0, |text|)
  {
  }

  lemma AllButLast(patterns: seq<Pattern>, last: Pattern)
    requires AllOrdered(patterns) && FindsOrdered(last)
    ensures AllOrdered(patterns + [last])
  {
    assert forall i :: 0 <= i < |patterns| ==> (patterns + [last])[i] == patterns[i];
  }

  lemma {:induction false} ShapesInTurn(text: string, patterns: seq<Pattern>, last: Pattern)
    requires AllOrdered(patterns) && FindsOrdered(last) && AllOrdered(patterns + [last])
    ensures OrderedMatches(last(Shapes(text, patterns)), 0, |Shapes(text, patterns)|)
    ensures Shapes(text, patterns + [last]) == Sub(last, Shapes(text, patterns))
    decreases |patterns|
  {
    hide FindsOrdered, Sub, OrderedMatches;
    var all := patterns + [last];
    FindsHere(last, Shapes(text, patterns));
    if patterns == [] {
      assert all == [last] && all[1..] == [];
    } else {
      assert all[1..] == patterns[1..] + [last] && all[0] == patterns[0];
      FindsHere(patterns[0], text);
      ShapesInTurn(Sub(patterns[0], text), patterns[1..], last);
    }
  }

  /**
   * One more pattern: in the result for the patterns before it, exactly the pieces its value
   * groups cover become masks, and everything else stays.
   */
  lemma LastPatternMasksItsValues(text: string, secrets: seq<string>, patterns: seq<Pattern>, last: Pattern)
    requires "" !in secrets && AllOrdered(patterns) && FindsOrdered(last)
    ensures AllOrdered(patterns + [last])
    ensures var before := Redacted(text, secrets, patterns);
            var values := AllGroups(last(before));
            && Ordered(values, 0, |before|)
            && Redacted(text, secrets, patterns + [last]) == Mask(before, values, 0)
            && (forall i :: 0 <= i < |values| ==> values[i].start <= values[i].end <= |before|)
            && Weave(Gaps(before, values, 0), Covered(before, values)) == before
            && Weave(Gaps(before, values, 0), Masks(|values|)) == Redacted(text, secrets, patterns + [last])
  {
    var before := Redacted(text, secrets, patterns);
    AllButLast(patterns, last);
    ShapesInTurn(Literals(text, secrets), patterns, last);
    MatchesEnd(last(before), 0, |before|);
    MaskSwapsPieces(before, AllGroups(last(before)), 0);
    assert before[0..] == before;
  }

  /** With nothing registered and one pattern, the value groups it finds in the text are masked. */
  lemma OnePatternMasks(text: string, pattern: Pattern)
    requires FindsOrdered(pattern)
    ensures AllOrdered([pattern]) && Ordered(AllGroups(pattern(text)), 0, |text|)
    ensures Redacted(text, [], [pattern]) == Mask(text, AllGroups(pattern(text)), 0)
  {
    LastPatternMasksItsValues(text, [], [], pattern);
    assert [] + [pattern] == [pattern];
  }

  /** The literals are replaced one after the other, in their order. */
  lemma {:induction false} LiteralsInTurn(text: string, secrets: seq<string>, last: string)
    requires "" !in secrets + [last]
    ensures "" !in secrets && last != ""
    ensures Literals(text, secrets + [last]) == Replace(Literals(text, secrets), last)
    decreases |secrets|
  {
    assert last in secrets + [last] && forall s :: s in secrets ==> s in secrets + [last];
    if secrets == [] {
      assert secrets + [last] == [last] && [last][1..] == [];
    } else {
      LiteralsInTurn(Replace(text, secrets[0]), secrets[1..], last);
      assert (secrets + [last])[1..] == secrets[1..] + [last];
    }
  }

  lemma {:induction false} LiteralsLeave(text: string, secrets: seq<string>)
    requires "" !in secrets && forall s :: s in secrets ==> !Occurs(s, text)
    ensures Literals(text, secrets) == text
    decreases |secrets|
  {
    if secrets != [] {
      NoHits(text, secrets[0], 0);
      assert Replace(text, secrets[0]) == text[0..] == text;
      LiteralsLeave(text, secrets[1..]);
    }
  }

  /** A text in which no registered secret occurs and no pattern finds anything is returned as it is. */
  lemma HarmlessTextStays(text: string, secrets: seq<string>, patterns: seq<Pattern>)
    requires "" !in secrets && AllOrdered(patterns)
    requires (forall s :: s in secrets ==> !Occurs(s, text)) && FindNothing(patterns, text)
    ensures Redacted(text, secrets, patterns) == text
  {
    LiteralsLeave(text, secrets);
    NothingFound(text, patterns);
  }

  predicate LongestFirst(secrets: seq<string>) {
    forall i, j :: 0 <= i < j < |secrets| ==> |secrets[i]| >= |secrets[j]|
  }

  /** Registered secrets, in an order in which `redact` may go through them. */
  predicate Registrable(secrets: seq<string>) {
    LongestFirst(secrets) && forall s :: s in secrets ==> |s| >= MIN_SECRET_LENGTH
  }

  ghost predicate AllOrdered(patterns: seq<Pattern>) {
    forall i :: 0 <= i < |patterns| ==> FindsOrdered(patterns[i])
  }

  /** Whatever else is registered and whatever the patterns find, no copy of a registered `secret` is left. */
  ghost predicate AlwaysGone(secret: string) {
    forall text: string, secrets: seq<string>, patterns: seq<Pattern> ::
      Registrable(secrets) && secret in secrets && AllOrdered(patterns) ==>
        !Occurs(secret, Redacted(text, secrets, patterns))
  }

  /** A literal that occurs at `at` only, with no room for another copy behind it, is the one hit. */
  lemma {:induction false} OneHit(text: string, needle: string, from: nat, at: nat)
    requires needle != "" && from <= at && OccursAt(needle, text, at) && |text| < at + 2 * |needle|
    requires forall i :: from <= i < at ==> !OccursAt(needle, text, i)
    ensures from <= |text| && Hits(text, needle, from) == [Span(at, at + |needle|)]
    decreases at - from
  {
    if from == at {
      assert Hits(text, needle, at + |needle|) == [];
    } else {
      OneHit(text, needle, from + 1, at);
    }
  }

  lemma DiffersAt(needle: string, text: string, i: nat, k: nat)
    requires i + |needle| <= |text| && k < |needle| && text[i + k] != needle[k]
    ensures !OccursAt(needle, text, i)
  {
    assert text[i..i + |needle|][k] == text[i + k];
  }

  /** `other` between `left` and `right`, masked where it stands. */
  lemma ReplaceMiddle(left: string, other: string, right: string)
    requires |left| <= |other| && |right| < |other|
    requires left != "" ==> forall i :: 0 <= i < |other| ==> other[i] != left[|left| - 1]
    ensures other != "" && Replace(left + other + right, other) == left + REDACTED + right
  {
    var text, at, n := left + other + right, |left|, |other|;
    assert text[at..at + n] == other;
    forall i: nat | i < at ensures !OccursAt(other, text, i) {
      DiffersAt(other, text, i, at - 1 - i);
    }
    OneHit(text, other, 0, at);
    var spans := [Span(at, at + n)];
    assert spans[1..] == [] && text[0..at] == left && text[at + n..] == right;
    assert Mask(text, spans, 0) == left + REDACTED + right;
  }

  /** Where `secret` has its star, the text has `other` all along: no copy of `secret` fits. */
  lemma NotYetThere(secret: string, left: string, other: string, right: string)
    requires |left| < |secret| && secret[|left|] == '*' && |left| + |right| < |secret| == |other|
    requires '*' !in other
    ensures !Occurs(secret, left + other + right)
  {
    var text, n := left + other + right, |secret|;
    forall i: nat ensures !OccursAt(secret, text, i) {
      if i + n <= |text| {
        assert text[i + |left|] == other[i] && other[i] in other;
        DiffersAt(secret, text, i, |left|);
      }
    }
  }

  /** Where a mask completes a secret that is not clean: between these two pieces of it. */
  lemma Seam(secret: string) returns (left: string, right: string)
    requires secret != "" && !Clean(secret)
    ensures |left| + |right| < |secret| && secret[|left|] == '*'
    ensures Occurs(secret, left + REDACTED + right)
  {
    var n := |secret|;
    if secret[0] == '*' {
      left, right := "", secret[1..];
      Found(secret, left + REDACTED + right, 2);
    } else if secret[n - 1] == '*' {
      left, right := secret[..n - 1], "";
      Found(secret, left + REDACTED + right, 0);
    } else {
      var i: nat :| i <= n && OccursAt(REDACTED, secret, i);
      left, right := secret[..i], secret[i + 3..];
      assert secret[i] == secret[i..i + 3][0];
      var same := left + REDACTED + right;
      assert secret == secret[..i] + secret[i..i + 3] + secret[i + 3..];
      assert same[0..n] == same;
      Found(secret, same, 0);
    }
  }

  /**
   * Two registered literals are enough: a text without a copy of `secret` in which the mask
   * for the other one completes `secret`, unless some pattern then finds something.
   */
  lemma CompletedByMask(secret: string) returns (text: string, secrets: seq<string>)
    requires |secret| >= MIN_SECRET_LENGTH && !Clean(secret)
    ensures !Occurs(secret, text) && Registrable(secrets) && |secrets| == 2 && secrets[0] == secret != secrets[1]
    ensures Occurs(secret, Literals(text, secrets))
  {
    var left, right := Seam(secret);
    var c := if left != "" && left[|left| - 1] == 'y' then 'z' else 'y';
    var other := seq(|secret|, _ => c);
    text, secrets := left + other + right, [secret, other];
    assert '*' !in other && other[|left|] != secret[|left|];
    NotYetThere(secret, left, other, right);
    NoHits(text, secret, 0);
    ReplaceMiddle(left, other, right);
    assert Replace(text, secret) == text;
    assert secrets[1..] == [other] && secrets[1..][1..] == [];
    assert Literals(text, secrets) == Literals(text, [other]) == Literals(left + REDACTED + right, []);
  }

  /** The patterns find nothing in the text. */
  predicate FindNothing(patterns: seq<Pattern>, text: string) {
    forall i :: 0 <= i < |patterns| ==> patterns[i](text) == []
  }

  lemma {:induction false} NothingFound(text: string, patterns: seq<Pattern>)
    requires AllOrdered(patterns) && FindNothing(patterns, text)
    ensures Shapes(text, patterns) == text
    decreases |patterns|
  {
    if patterns != [] {
      assert FindsOrdered(patterns[0]) && patterns[0](text) == [];
      assert Sub(patterns[0], text) == text[0..] == text;
      NothingFound(text, patterns[1..]);
    }
  }

  /** Around such a text, patterns that find nothing in it do not help. */
  lemma UncleanSecretShows(secret: string, patterns: seq<Pattern>) returns (text: string, secrets: seq<string>)
    requires |secret| >= MIN_SECRET_LENGTH && !Clean(secret) && AllOrdered(patterns)
    ensures !Occurs(secret, text) && Registrable(secrets) && secret in secrets
    ensures FindNothing(patterns, Literals(text, secrets)) ==> Occurs(secret, Redacted(text, secrets, patterns))
  {
    text, secrets := CompletedByMask(secret);
    if FindNothing(patterns, Literals(text, secrets)) {
      NothingFound(Literals(text, secrets), patterns);
    }
  }

  /** Exactly the clean secrets are safe: the mask of another registered one may complete any other. */
  lemma OnlyCleanSecretsAreSafe(secret: string)
    requires |secret| >= MIN_SECRET_LENGTH
    ensures AlwaysGone(secret) <==> Clean(secret)
  {
    if Clean(secret) {
      forall text: string, secrets: seq<string>, patterns: seq<Pattern>
        | Registrable(secrets) && secret in secrets && AllOrdered(patterns)
        ensures !Occurs(secret, Redacted(text, secrets, patterns))
      {
        SecretIsGone(text, secrets, patterns, secret);
      }
    } else {
      var patterns: seq<Pattern> := [];
      var text, secrets := UncleanSecretShows(secret, patterns);
      assert FindNothing(patterns, Literals(text, secrets));
    }
  }

  class Redactor {
    var registered: set<string>

    ghost predicate Valid()
      reads this
    {
      forall secret :: secret in registered ==> |secret| >= MIN_SECRET_LENGTH
    }

    constructor ()
      ensures Valid() && registered == {}
    {
      registered := {};
    }

    method RegisterSecret(value: Option<string>)
      requires Valid()
      modifies this
      ensures Valid()
      ensures registered == old(registered) + if value.Some?
          && |value.value| >= MIN_SECRET_LENGTH then {value.value} else {}
    {
      if value.Some? && |value.value| >= MIN_SECRET_LENGTH {
        registered := registered + {value.value};
      }
    }

    method Redact(text: string, patterns: seq<Pattern>) returns (result: string, ghost order: seq<string>)
      requires Valid() && forall i :: 0 <= i < |patterns| ==> FindsOrdered(patterns[i])
      ensures (forall s :: s in order <==> s in registered) && LongestFirst(order) && "" !in order
      ensures result == Redacted(text, order, patterns)
      ensures forall secret :: secret in registered && Clean(secret) ==> !Occurs(secret, result)
    {
      var secrets := Sorted(registered);
      order := secrets;
      result := text;
      assert secrets[0..] == secrets;
      var i := 0;
      while i < |secrets|
        invariant i <= |secrets| && Literals(text, secrets) == Literals(result, secrets[i..])
      {
        assert secrets[i..][1..] == secrets[i + 1..];
        result := Replace(result, secrets[i]);
        i := i + 1;
      }
      i := 0;
      assert patterns[0..] == patterns;
      while i < |patterns|
        invariant i <= |patterns| && Redacted(text, secrets, patterns) == Shapes(result, patterns[i..])
      {
        assert FindsOrdered(patterns[i]);
        assert patterns[i..][1..] == patterns[i + 1..];
        result := PatternSub(patterns[i], result);
        i := i + 1;
      }
      forall secret | secret in registered && Clean(secret) ensures !Occurs(secret, result) {
        SecretIsGone(text, secrets, patterns, secret);
      }
    }
  }

  /** `sorted(secrets, key=len, reverse=True)`; equal lengths come in any order. */
  method Sorted(secrets: set<string>) returns (sorted: seq<string>)
    ensures (forall s :: s in sorted <==> s in secrets) && LongestFirst(sorted)
  {
    sorted := [];
    var rest := secrets;
    while rest != {}
      invariant rest <= secrets && (forall s :: s in sorted <==> s in secrets - rest) && LongestFirst(sorted)
      invariant forall s, t :: s in sorted && t in rest ==> |s| >= |t|
    {
      var longest := Longest(rest);
      assert forall i :: 0 <= i < |sorted| ==> sorted[i] in sorted;
      sorted, rest := sorted + [longest], rest - {longest};
    }
  }

  method Longest(secrets: set<string>) returns (longest: string)
    requires secrets != {}
    ensures longest in secrets && forall s :: s in secrets ==> |longest| >= |s|
  {
    longest :| longest in secrets;
    var rest := secrets - {longest};
    while rest != {}
      invariant rest <= secrets && longest in secrets && forall s :: s in secrets - rest ==> |longest| >= |s|
    {
      var s :| s in rest;
      if |s| > |longest| {
        longest := s;
      }
      rest := rest - {s};
    }
  }

  lemma Regroup(x: string, y: string, z: string)
    ensures (x + y) + z == x + (y + z)
  {
  }

  lemma MaskFrom(text: string, spans: seq<Span>, from: nat, to: nat)
    requires Ordered(spans, to, |text|) && from <= to <= |text|
    ensures Ordered(spans, from, |text|) && Mask(text, spans, from) == text[from..to] + Mask(text, spans, to)
  {
    Loosen(spans, to, from, |text|);
    if spans == [] {
      assert text[from..] == text[from..to] + text[to..];
    } else {
      OrderedEnds(spans, to, |text|);
      var lead, gap, rest := text[from..to], text[to..spans[0].start], Mask(text, spans[1..], spans[0].end);
      assert text[from..spans[0].start] == lead + gap;
      assert Mask(text, spans, from) == (lead + gap) + REDACTED + rest;
      assert Mask(text, spans, to) == gap + REDACTED + rest;
      hide Mask, Ordered;
      Regroup(lead, gap, REDACTED);
      Regroup(lead, gap + REDACTED, rest);
    }
  }

  lemma {:induction false} OrderedParts(spans: seq<Span>, k: nat, from: nat, to: nat)
    requires Ordered(spans, from, to) && 0 < k <= |spans|
    ensures Ordered(spans[k..], spans[k - 1].end, to) && from <= spans[k - 1].start <= spans[k - 1].end <= to
    decreases k
  {
    OrderedEnds(spans, from, to);
    if k > 1 {
      OrderedParts(spans[1..], k - 1, spans[0].end, to);
      assert spans[1..][k - 1..] == spans[k..];
    }
  }

  /** `_mask_match`: splicing the groups out one by one, rightmost first, masks them all. */
  method MaskMatch(matched: string, groups: seq<Span>) returns (replaced: string)
    requires Ordered(groups, 0, |matched|)
    ensures replaced == Mask(matched, groups, 0)
  {
    replaced := matched;
    var k := |groups|;
    assert groups[k..] == [] && matched[0..] == matched;
    while k > 0
      invariant k <= |groups| && Ordered(groups[k..], 0, |matched|) && replaced == Mask(matched, groups[k..], 0)
    {
      k := k - 1;
      OrderedParts(groups, k + 1, 0, |matched|);
      MaskFrom(matched, groups[k + 1..], 0, groups[k].end);
      assert groups[k..][1..] == groups[k + 1..];
      assert replaced[groups[k].end..] == Mask(matched, groups[k + 1..], groups[k].end);
      replaced := replaced[..groups[k].start] + REDACTED + replaced[groups[k].end..];
    }
    assert groups[0..] == groups;
  }

  /** Spans of a text as spans of its part from `base` on. */
  function Shifted(spans: seq<Span>, base: nat, from: nat, to: nat): (local: seq<Span>)
    requires Ordered(spans, from, to) && base <= from
    ensures from <= to && Ordered(local, from - base, to - base) && |local| == |spans|
    decreases |spans|
  {
    OrderedEnds(spans, from, to);
    if spans == [] then [] else
      [Span(spans[0].start - base, spans[0].end - base)] + Shifted(spans[1..], base, spans[0].end, to)
  }

  lemma {:induction false} MaskShifted(text: string, spans: seq<Span>, base: nat, from: nat)
    requires Ordered(spans, from, |text|) && base <= from
    ensures from <= |text| && Mask(text[base..], Shifted(spans, base, from, |text|), from - base) == Mask(text,
        spans, from)
    decreases |spans|
  {
    OrderedEnds(spans, from, |text|);
    var local := Shifted(spans, base, from, |text|);
    if spans == [] {
      assert text[base..][from - base..] == text[from..];
    } else {
      var part, tail := text[base..], spans[1..];
      MaskShifted(text, tail, base, spans[0].end);
      assert local[1..] == Shifted(tail, base, spans[0].end, |text|);
      assert Mask(part, local, from - base) == part[from - base..local[0].start] + REDACTED + Mask(part, local[1..],
          local[0].end);
      assert Mask(text, spans, from) == text[from..spans[0].start] + REDACTED + Mask(text, tail, spans[0].end);
      hide Mask, Ordered, Shifted;
      assert part[from - base..local[0].start] == text[from..spans[0].start];
    }
  }

  lemma MaskFirst(text: string, spans: seq<Span>, from: nat, to: nat)
    requires Ordered(spans, from, to) && to <= |text| && spans != []
    ensures from <= spans[0].start <= spans[0].end <= to && Ordered(spans[1..], spans[0].end, to)
    ensures Ordered(spans, from, |text|) && Ordered(spans[1..], spans[0].end, |text|)
    ensures Mask(text, spans, from) == text[from..spans[0].start] + REDACTED + Mask(text, spans[1..], spans[0].end)
  {
    OrderedEnds(spans, from, to);
    Widen(spans, from, to, |text|);
  }

  lemma {:induction false} Widen(spans: seq<Span>, from: nat, to: nat, upper: nat)
    requires Ordered(spans, from, to) && to <= upper
    ensures Ordered(spans, from, upper)
    decreases |spans|
  {
    if spans != [] {
      Widen(spans[1..], spans[0].end, to, upper);
    }
  }

  lemma {:induction false} MaskSplit(text: string, a: seq<Span>, b: seq<Span>, from: nat, middle: nat)
    requires Ordered(a, from, middle) && Ordered(b, middle, |text|)
    ensures middle <= |text| && Ordered(a + b, from, |text|)
    ensures Mask(text, a + b, from) == Mask(text[..middle], a, from) + Mask(text, b, middle)
    decreases |a|
  {
    OrderedEnds(a, from, middle);
    OrderedEnds(b, middle, |text|);
    GroupsChain(a, b, from, middle, |text|);
    if a == [] {
      assert a + b == b;
      MaskFrom(text, b, from, middle);
      assert text[..middle][from..] == text[from..middle];
    } else {
      hide Mask, Ordered;
      var part, first := text[..middle], a[0];
      assert (a + b)[1..] == a[1..] + b && (a + b)[0] == first;
      MaskFirst(part, a, from, middle);
      MaskFirst(text, a + b, from, |text|);
      MaskSplit(text, a[1..], b, first.end, middle);
      assert part[from..first.start] == text[from..first.start];
      Regroup(text[from..first.start] + REDACTED, Mask(part, a[1..], first.end), Mask(text, b, middle));
    }
  }

  /** One match's share of the masked text. */
  lemma MatchStep(text: string, matches: seq<Match>, from: nat)
    requires matches != [] && OrderedMatches(matches, from, |text|)
    ensures var m, rest := matches[0], AllGroups(matches[1..]);
            && m.start <= m.end <= |text|
            && Ordered(AllGroups(matches), from, |text|) && Ordered(rest, m.end, |text|)
            && Ordered(Shifted(m.groups, m.start, m.start, m.end), 0, |text[m.start..m.end]|)
            && Mask(text, AllGroups(matches), from)
               == text[from..m.start] + Mask(text[m.start..m.end], Shifted(m.groups, m.start, m.start, m.end),
                   0) + Mask(text, rest, m.end)
  {
    var m, rest := matches[0], AllGroups(matches[1..]);
    MatchesEnd(matches, from, |text|);
    MatchesEnd(matches[1..], m.end, |text|);
    OrderedEnds(m.groups, m.start, m.end);
    MaskSplit(text, m.groups, rest, m.start, m.end);
    MaskFrom(text, AllGroups(matches), from, m.start);
    MaskShifted(text[..m.end], m.groups, m.start, m.start);
    hide Mask, Ordered, OrderedMatches, Shifted;
    assert text[..m.end][m.start..] == text[m.start..m.end];
    Regroup(text[from..m.start], Mask(text[..m.end], m.groups, m.start), Mask(text, rest, m.end));
  }

  /** `pattern.sub(_mask_match, text)`. */
  method PatternSub(pattern: Pattern, text: string) returns (result: string)
    requires OrderedMatches(pattern(text), 0, |text|)
    ensures result == Sub(pattern, text)
  {
    var matches := pattern(text);
    MatchesEnd(matches, 0, |text|);
    result := "";
    var from: nat, i: nat := 0, 0;
    assert matches[0..] == matches;
    while i < |matches|
      invariant i <= |matches| && from <= |text| && OrderedMatches(matches[i..], from, |text|)
      invariant Ordered(AllGroups(matches[i..]), from, |text|)
      invariant Sub(pattern, text) == result + Mask(text, AllGroups(matches[i..]), from)
    {
      var m := matches[i];
      assert matches[i..][1..] == matches[i + 1..];
      MatchStep(text, matches[i..], from);
      var masked := MaskMatch(text[m.start..m.end], Shifted(m.groups, m.start, m.start, m.end));
      MatchesEnd(matches[i + 1..], m.end, |text|);
      result := result + text[from..m.start] + masked;
      from, i := m.end, i + 1;
    }
    result := result + text[from..];
  }
}
