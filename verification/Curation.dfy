/** `ansina.heart.curation`: selecting events under a token budget. */
module Curation {
  import opened Wrappers
  import opened Text

  datatype Event = Event(sequence: nat, rawType: string, payload: string)

  type TokenCount = string -> nat

  function RenderEvent(e: Event): string {
    "[" + Decimal(e.sequence) + "] " + e.rawType + ": " + e.payload
  }

  function Cost(e: Event, tokenCount: TokenCount): nat {
    tokenCount(RenderEvent(e))
  }

  function Costs(events: seq<Event>, tokenCount: TokenCount): (costs: seq<nat>)
    ensures |costs| == |events|
    ensures forall i :: 0 <= i < |events| ==> costs[i] == Cost(events[i], tokenCount)
  {
    seq(|events|, i requires 0 <= i < |events| => Cost(events[i], tokenCount))
  }

  function Sum(costs: seq<nat>): nat {
    if costs == [] then 0 else costs[0] + Sum(costs[1..])
  }

  /** How many of the first costs a greedy walk keeps. */
  function Fitting(costs: seq<nat>, budget: int): (k: nat)
    ensures k <= |costs|
  {
    if costs == [] || costs[0] > budget then 0 else 1 + Fitting(costs[1..], budget - costs[0])
  }

  /** The greedy walk keeps the longest run from the front that fits the budget. */
  lemma {:induction false} FittingIsLongest(costs: seq<nat>, budget: nat, j: nat)
    requires j <= |costs|
    ensures Sum(costs[..Fitting(costs, budget)]) <= budget
    ensures Sum(costs[..j]) <= budget <==> j <= Fitting(costs, budget)
  {
    var k := Fitting(costs, budget);
    if costs != [] {
      if costs[0] <= budget {
        FittingIsLongest(costs[1..], budget - costs[0], if j == 0 then 0 else j - 1);
        assert costs[..k][1..] == costs[1..][..k - 1];
      }
      if j > 0 {
        assert costs[..j][1..] == costs[1..][..j - 1];
      }
    }
  }

  lemma FittingGrows(costs: seq<nat>, less: nat, more: nat)
    requires less <= more
    ensures Fitting(costs, less) <= Fitting(costs, more)
  {
    FittingIsLongest(costs, less, 0);
    FittingIsLongest(costs, more, Fitting(costs, less));
  }

  function Sequences(events: seq<Event>): set<nat> {
    set e | e in events :: e.sequence
  }

  /** Sequence numbers are a run's own ordinals: no two events share one. */
  predicate Distinct(events: seq<Event>) {
    forall i, j :: 0 <= i < j < |events| ==> events[i].sequence != events[j].sequence
  }

  predicate NewestFirst(order: seq<Event>) {
    forall i, j :: 0 <= i < j < |order| ==> order[i].sequence > order[j].sequence
  }

  ghost predicate SameEvents(a: seq<Event>, b: seq<Event>) {
    |a| == |b| && forall e :: e in a <==> e in b
  }

  /** What the window keeps, given the events newest first. */
  function Window(order: seq<Event>, budget: int, tokenCount: TokenCount): set<nat> {
    Sequences(order[..Fitting(Costs(order, tokenCount), budget)])
  }

  /** A larger budget keeps everything a smaller one does. */
  lemma WindowGrows(order: seq<Event>, less: nat, more: nat, tokenCount: TokenCount)
    requires less <= more
    ensures Window(order, less, tokenCount) <= Window(order, more, tokenCount)
  {
    FittingGrows(Costs(order, tokenCount), less, more);
    var j, k := Fitting(Costs(order, tokenCount), less), Fitting(Costs(order, tokenCount), more);
    assert forall i :: 0 <= i < j ==> order[..j][i] == order[..k][i];
  }

  /** `sorted(events, key=sequence, reverse=True)` for distinct sequence numbers. */
  method Sorted(events: seq<Event>) returns (order: seq<Event>)
    requires Distinct(events)
    ensures NewestFirst(order) && SameEvents(order, events)
  {
    order := [];
    var rest := set e | e in events;
    DistinctCount(events);
    while rest != {}
      invariant rest <= set e | e in events
      invariant forall e :: e in order <==> e in events && e !in rest
      invariant NewestFirst(order) && |order| + |rest| == |events|
      invariant forall i, e :: 0 <= i < |order| && e in rest ==> order[i].sequence > e.sequence
    {
      var newest := Newest(events, rest);
      order, rest := order + [newest], rest - {newest};
    }
  }

  lemma {:induction false} DistinctCount(events: seq<Event>)
    requires Distinct(events)
    ensures |set e | e in events| == |events|
  {
    if events == [] {
      assert (set e | e in events) == {};
    } else {
      DistinctCount(events[1..]);
      assert (set e | e in events) == (set e | e in events[1..]) + {events[0]};
    }
  }

  lemma SameSequence(events: seq<Event>, a: Event, b: Event)
    requires Distinct(events) && a in events && b in events && a.sequence == b.sequence
    ensures a == b
  {
    var i :| 0 <= i < |events| && events[i] == a;
    var j :| 0 <= j < |events| && events[j] == b;
    assert i == j || i < j || j < i;
  }

  method Newest(events: seq<Event>, among: set<Event>) returns (newest: Event)
    requires Distinct(events) && among != {} && forall e :: e in among ==> e in events
    ensures newest in among && forall e :: e in among && e != newest ==> newest.sequence > e.sequence
  {
    newest :| newest in among;
    var rest := among - {newest};
    while rest != {}
      invariant rest <= among && newest in among
      invariant forall e :: e in among - rest && e != newest ==> newest.sequence > e.sequence
    {
      var e :| e in rest;
      if e.sequence == newest.sequence {
        SameSequence(events, e, newest);
      }
      if e.sequence > newest.sequence {
        newest := e;
      }
      rest := rest - {e};
    }
  }

  method RecencyWindowSelection(events: seq<Event>, budget: int, tokenCount: TokenCount) returns (kept: set<nat>)
    requires Distinct(events)
    ensures exists order :: NewestFirst(order) && SameEvents(order, events) && kept == Window(order, budget, tokenCount)
  {
    hide RenderEvent, SameEvents, NewestFirst;
    var newestFirst := Sorted(events);
    ghost var order := newestFirst;
    ghost var costs := Costs(order, tokenCount);
    var cumulative := 0;
    kept := {};
    var i := 0;
    assert costs[0..] == costs;
    while i < |newestFirst|
      invariant i <= |order| && kept == Sequences(order[..i])
      invariant Fitting(costs, budget) == i + Fitting(costs[i..], budget - cumulative)
    {
      var cost := Cost(newestFirst[i], tokenCount);
      assert costs[i] == cost && costs[i..][1..] == costs[i + 1..];
      if cumulative + cost > budget {
        return;
      }
      cumulative := cumulative + cost;
      assert order[..i + 1] == order[..i] + [order[i]];
      kept := kept + {newestFirst[i].sequence};
      i := i + 1;
    }
  }

  /** `{event.sequence: event for event in events}`. */
  function BySequence(events: seq<Event>): (table: map<nat, Event>)
    ensures table.Keys == Sequences(events)
    ensures forall s :: s in table ==> table[s] in events && table[s].sequence == s
  {
    if events == [] then map[]
    else
      var last := events[|events| - 1];
      BySequence(events[..|events| - 1])[last.sequence := last]
  }

  function Picked(events: seq<Event>, numbers: seq<nat>): (picked: seq<Event>)
    requires forall s :: s in numbers ==> s in Sequences(events)
    ensures |picked| == |numbers| && forall i :: 0 <= i < |numbers| ==>
        picked[i] in events && picked[i].sequence == numbers[i]
  {
    var table := BySequence(events);
    assert forall i :: 0 <= i < |numbers| ==> numbers[i] in numbers && numbers[i] in table;
    seq(|numbers|, i requires 0 <= i < |numbers| => table[numbers[i]])
  }

  /** Trims the model's own list from the point where it no longer fits. */
  method EnforceBudget(events: seq<Event>, ordered: seq<nat>, budget: int, tokenCount: TokenCount)
      returns (kept: set<nat>, exceeded: bool)
    requires forall s :: s in ordered ==> s in Sequences(events)
    ensures var k := Fitting(Costs(Picked(events, ordered), tokenCount), budget);
            kept == (set s | s in ordered[..k]) && (exceeded <==> k < |ordered|)
  {
    hide RenderEvent, BySequence, Sequences;
    var bySequence := BySequence(events);
    ghost var costs := Costs(Picked(events, ordered), tokenCount);
    var cumulative := 0;
    kept, exceeded := {}, false;
    var i := 0;
    assert costs[0..] == costs;
    while i < |ordered|
      invariant i <= |ordered| && kept == set s | s in ordered[..i]
      invariant Fitting(costs, budget) == i + Fitting(costs[i..], budget - cumulative)
    {
      var cost := Cost(bySequence[ordered[i]], tokenCount);
      assert costs[i] == cost && costs[i..][1..] == costs[i + 1..];
      if cumulative + cost > budget {
        exceeded := true;
        return;
      }
      cumulative := cumulative + cost;
      assert ordered[..i + 1] == ordered[..i] + [ordered[i]];
      kept := kept + {ordered[i]};
      i := i + 1;
    }
  }

  const THINK_END := "</think>"

  /** `int()` refuses a longer run of digits. */
  const MAX_DIGITS := 4300

  predicate TagAt(raw: string, i: nat) {
    i + |THINK_END| <= |raw| && raw[i..i + |THINK_END|] == THINK_END
  }

  /** `raw.rsplit("</think>", 1)[-1]`: what follows the last closing tag, or everything. */
  function AfterThinking(raw: string, below: nat): (answer: string)
    requires below <= |raw|
    decreases below
  {
    if below == 0 then raw
    else if TagAt(raw, below - 1) then raw[below - 1 + |THINK_END|..]
    else AfterThinking(raw, below - 1)
  }

  predicate IsDigit(c: char) {
    '0' <= c <= '9'
  }

  /** The digits `text` starts with. */
  function LeadingDigits(text: string): (run: string)
    ensures Digits(run) && run <= text
  {
    if text == "" || !IsDigit(text[0]) then "" else [text[0]] + LeadingDigits(text[1..])
  }

  /** `\\d+` matches, left to right. */
  function Runs(text: string): (runs: seq<string>)
    ensures forall i :: 0 <= i < |runs| ==> Digits(runs[i]) && runs[i] != ""
    decreases |text|
  {
    if text == "" then []
    else
      var run := LeadingDigits(text);
      if run == "" then Runs(text[1..]) else [run] + Runs(text[|run|..])
  }

  /** The distinct valid values of the runs, by first mention. */
  function Mentioned(runs: seq<string>, valid: set<nat>): (values: seq<nat>)
    requires forall i :: 0 <= i < |runs| ==> Digits(runs[i])
  {
    if runs == [] then []
    else
      var before, value := Mentioned(runs[..|runs| - 1], valid), Value(runs[|runs| - 1]);
      if value in valid && value !in before then before + [value] else before
  }

  predicate MentionedBy(runs: seq<string>, k: nat, value: nat)
    requires k <= |runs| && forall i :: 0 <= i < |runs| ==> Digits(runs[i])
  {
    exists i :: 0 <= i < k && Value(runs[i]) == value
  }

  /** Each valid number that is mentioned comes once, and in the order of first mentions. */
  lemma {:induction false} MentionedInOrder(runs: seq<string>, valid: set<nat>)
    requires forall i :: 0 <= i < |runs| ==> Digits(runs[i])
    ensures var values := Mentioned(runs, valid);
            && (forall v :: v in values <==> v in valid && MentionedBy(runs, |runs|, v))
            && (forall i, j :: 0 <= i < j < |values| ==>
                  values[i] != values[j] && exists k ::
                      0 < k <= |runs| && MentionedBy(runs, k, values[i]) && !MentionedBy(runs, k, values[j]))
  {
    if runs != [] {
      var n := |runs| - 1;
      var front := runs[..n];
      MentionedInOrder(front, valid);
      var before, values := Mentioned(front, valid), Mentioned(runs, valid);
      forall k, v | 0 <= k <= n ensures MentionedBy(front, k, v) <==> MentionedBy(runs, k, v) {
        assert forall i :: 0 <= i < n ==> front[i] == runs[i];
      }
      assert forall v :: MentionedBy(runs, n + 1, v) <==> MentionedBy(runs, n, v) || v == Value(runs[n]);
      forall i, j | 0 <= i < j < |values|
        ensures values[i] != values[j] && exists k ::
            0 < k <= |runs| && MentionedBy(runs, k, values[i]) && !MentionedBy(runs, k, values[j])
      {
        if j == |before| {
          assert before[i] in before && MentionedBy(runs, n, values[i]) && !MentionedBy(runs, n, values[j]);
        } else {
          var k :| 0 < k <= n && MentionedBy(front, k, before[i]) && !MentionedBy(front, k, before[j]);
          assert MentionedBy(runs, k, values[i]) && !MentionedBy(runs, k, values[j]);
        }
      }
    }
  }

  datatype ParseError = TooManyDigits

  predicate Readable(raw: string) {
    forall run :: run in Runs(AfterThinking(raw, |raw|)) ==> |run| <= MAX_DIGITS
  }

  /** The model's own order; nothing if no mentioned number is valid, and an error from `int()` on an overlong run. */
  function TryParsed(raw: string, valid: set<nat>): Result<Option<seq<nat>>, ParseError> {
    var values := Mentioned(Runs(AfterThinking(raw, |raw|)), valid);
    if !Readable(raw) then Failure(TooManyDigits)
    else Success(if values == [] then None else Some(values))
  }

  method TryParseCuration(raw: string, valid: set<nat>) returns (r: Result<Option<seq<nat>>, ParseError>)
    ensures r == TryParsed(raw, valid)
  {
    var runs := Runs(AfterThinking(raw, |raw|));
    var seen: set<nat> := {};
    var ordered: seq<nat> := [];
    var i := 0;
    while i < |runs|
      invariant i <= |runs| && ordered == Mentioned(runs[..i], valid) && seen == set v | v in ordered
      invariant forall j :: 0 <= j < i ==> |runs[j]| <= MAX_DIGITS
    {
      if |runs[i]| > MAX_DIGITS {
        assert runs[i] in runs;
        return Failure(TooManyDigits);
      }
      var value := Value(runs[i]);
      assert runs[..i + 1][..i] == runs[..i];
      if value in valid && value !in seen {
        seen := seen + {value};
        ordered := ordered + [value];
      }
      i := i + 1;
    }
    assert runs[..i] == runs;
    return Success(if ordered == [] then None else Some(ordered));
  }

  datatype Outcome = Outcome(selected: set<nat>, parsed: Option<set<nat>>, exceededBudget: bool)

  /** `numbers` are distinct, shown, and together within the budget. */
  ghost predicate Affordable(events: seq<Event>, numbers: seq<nat>, budget: int, tokenCount: TokenCount) {
    && (forall s :: s in numbers ==> s in Sequences(events))
    && (forall i, j :: 0 <= i < j < |numbers| ==> numbers[i] != numbers[j])
    && Sum(Costs(Picked(events, numbers), tokenCount)) <= budget
  }

  /** `numbers` is as much of the front of `ordered` as the budget allows. */
  ghost predicate LongestAffordable(events: seq<Event>, ordered: seq<nat>, numbers: seq<nat>, budget: int,
      tokenCount: TokenCount)
  {
    && numbers <= ordered
    && forall j :: |numbers| < j <= |ordered| ==> !Affordable(events, ordered[..j], budget, tokenCount)
  }

  /** Whatever the model replies, the selection names only shown events and fits the budget, unless `int()` raises. */
  method Curate(events: seq<Event>, budget: nat, tokenCount: TokenCount, raw: string)
    returns (r: Result<Outcome, ParseError>, ghost numbers: seq<nat>)
    requires Distinct(events)
    ensures r.Success? <==> Readable(raw)
    ensures r.Success? ==> r.value.selected == (set s | s in numbers) && Affordable(events, numbers, budget, tokenCount)
    ensures r.Success? ==> var answer := TryParsed(raw, Sequences(events)).value;
              && (r.value.parsed.Some? <==> answer.Some?)
              && (answer.Some? ==>
                    && r.value.parsed.value == (set s | s in answer.value)
                    && LongestAffordable(events, answer.value, numbers, budget, tokenCount)
                    && (r.value.exceededBudget <==> numbers != answer.value))
              && (answer.None? ==> !r.value.exceededBudget)
    ensures r.Success? && r.value.parsed.None? ==>
              exists order :: NewestFirst(order) && SameEvents(order, events)
                  && r.value.selected == Window(order, budget, tokenCount)
  {
    hide Window, Fitting, Costs, Picked, Runs, LeadingDigits, AfterThinking, Mentioned, MentionedBy, Sum,
        RenderEvent, Readable, BySequence;
    numbers := [];
    var valid := Sequences(events);
    var fallback := RecencyWindowSelection(events, budget, tokenCount);
    ghost var order :| NewestFirst(order) && SameEvents(order, events) && fallback == Window(order, budget, tokenCount);
    var answer := TryParseCuration(raw, valid);
    if answer.Failure? {
      return Failure(answer.error), numbers;
    }
    if answer.value.None? {
      numbers := WindowNumbers(events, order, budget, tokenCount);
      return Success(Outcome(fallback, None, false)), numbers;
    }
    var ordered := answer.value.value;
    assert ordered == Mentioned(Runs(AfterThinking(raw, |raw|)), valid);
    MentionedInOrder(Runs(AfterThinking(raw, |raw|)), valid);
    var selected, exceeded := EnforceBudget(events, ordered, budget, tokenCount);
    numbers := ordered[..Fitting(Costs(Picked(events, ordered), tokenCount), budget)];
    PrefixAffordable(events, ordered, budget, tokenCount);
    return Success(Outcome(selected, Some(set s | s in ordered), exceeded)), numbers;
  }

  lemma PrefixCosts(events: seq<Event>, ordered: seq<nat>, j: nat, tokenCount: TokenCount)
    requires j <= |ordered| && forall s :: s in ordered ==> s in Sequences(events)
    ensures forall s :: s in ordered[..j] ==> s in Sequences(events)
    ensures Costs(Picked(events, ordered[..j]), tokenCount) == Costs(Picked(events, ordered), tokenCount)[..j]
  {
    forall s | s in ordered[..j] ensures s in Sequences(events) {
      assert s in ordered;
    }
    assert Picked(events, ordered[..j]) == Picked(events, ordered)[..j];
  }

  lemma PrefixAffordable(events: seq<Event>, ordered: seq<nat>, budget: nat, tokenCount: TokenCount)
    requires forall s :: s in ordered ==> s in Sequences(events)
    requires forall i, j :: 0 <= i < j < |ordered| ==> ordered[i] != ordered[j]
    ensures var k := Fitting(Costs(Picked(events, ordered), tokenCount), budget);
            && Affordable(events, ordered[..k], budget, tokenCount)
            && LongestAffordable(events, ordered, ordered[..k], budget, tokenCount)
  {
    var costs := Costs(Picked(events, ordered), tokenCount);
    var k := Fitting(costs, budget);
    forall j | 0 <= j <= |ordered| ensures Affordable(events, ordered[..j], budget, tokenCount) <==> j <= k {
      FittingIsLongest(costs, budget, j);
      PrefixCosts(events, ordered, j, tokenCount);
    }
  }

  function Numbers(events: seq<Event>): (numbers: seq<nat>)
    ensures |numbers| == |events| && forall i :: 0 <= i < |events| ==> numbers[i] == events[i].sequence
  {
    seq(|events|, i requires 0 <= i < |events| => events[i].sequence)
  }

  lemma NumbersOfKept(events: seq<Event>, kept: seq<Event>)
    requires Distinct(events) && forall e :: e in kept ==> e in events
    ensures (forall s :: s in Numbers(kept) ==> s in Sequences(events)) && Picked(events, Numbers(kept)) == kept
    ensures Sequences(kept) == set s | s in Numbers(kept)
  {
    var numbers := Numbers(kept);
    forall s | s in numbers ensures s in Sequences(events) && s in Sequences(kept) {
      var i :| 0 <= i < |kept| && numbers[i] == s;
      assert kept[i] in kept;
    }
    forall s | s in Sequences(kept) ensures s in numbers {
      var e :| e in kept && e.sequence == s;
      var i :| 0 <= i < |kept| && kept[i] == e;
      assert numbers[i] == s;
    }
    forall i | 0 <= i < |kept| ensures Picked(events, numbers)[i] == kept[i] {
      SameSequence(events, Picked(events, numbers)[i], kept[i]);
    }
  }

  lemma WindowNumbers(events: seq<Event>, order: seq<Event>, budget: nat, tokenCount: TokenCount)
      returns (numbers: seq<nat>)
    requires Distinct(events) && NewestFirst(order) && SameEvents(order, events)
    ensures Window(order, budget, tokenCount) == (set s | s in numbers)
        && Affordable(events, numbers, budget, tokenCount)
  {
    var costs := Costs(order, tokenCount);
    var k := Fitting(costs, budget);
    var kept := order[..k];
    FittingIsLongest(costs, budget, k);
    numbers := Numbers(kept);
    assert forall e :: e in kept ==> e in order;
    NumbersOfKept(events, kept);
    assert Costs(kept, tokenCount) == costs[..k];
  }

  /** How a well-behaved model answers. */
  function CommaList(numbers: seq<nat>): string {
    if numbers == [] then ""
    else if |numbers| == 1 then Decimal(numbers[0])
    else Decimal(numbers[0]) + (", " + CommaList(numbers[1..]))
  }

  lemma {:induction false} DigitsThenOther(run: string, rest: string)
    requires Digits(run) && (rest == "" || !IsDigit(rest[0]))
    ensures LeadingDigits(run + rest) == run
  {
    if run == "" {
      assert run + rest == rest;
    } else {
      DigitsThenOther(run[1..], rest);
      assert (run + rest)[1..] == run[1..] + rest;
      assert run == [run[0]] + run[1..];
    }
  }

  lemma FirstRun(run: string, rest: string)
    requires Digits(run) && run != "" && (rest == "" || !IsDigit(rest[0]))
    ensures Runs(run + rest) == [run] + Runs(rest)
  {
    DigitsThenOther(run, rest);
    assert (run + rest)[|run|..] == rest;
  }

  function Decimals(numbers: seq<nat>): (runs: seq<string>)
    ensures |runs| == |numbers| && forall i :: 0 <= i < |runs| ==> runs[i] == Decimal(numbers[i])
  {
    seq(|numbers|, i requires 0 <= i < |numbers| => Decimal(numbers[i]))
  }

  lemma {:induction false} RunsOfList(numbers: seq<nat>)
    ensures Runs(CommaList(numbers)) == Decimals(numbers)
  {
    if numbers != [] {
      var first, rest := Decimal(numbers[0]), numbers[1..];
      RunsOfList(rest);
      var list := CommaList(rest);
      var tail := if rest == [] then "" else ", " + list;
      FirstRun(first, tail);
      assert CommaList(numbers) == first + tail;
      hide CommaList, Decimal, LeadingDigits;
      if rest == [] {
        assert Runs(tail) == [] == Decimals(rest);
      } else {
        SkipOther(' ', list);
        SkipOther(',', " " + list);
        assert tail == "," + (" " + list);
      }
      hide Runs;
      assert Decimals(numbers) == [first] + Decimals(rest);
    }
  }

  lemma {:induction false} ListChars(numbers: seq<nat>)
    ensures '<' !in CommaList(numbers)
  {
    if numbers != [] {
      ListChars(numbers[1..]);
      assert '<' !in Decimal(numbers[0]);
    }
  }

  lemma SkipOther(c: char, text: string)
    requires !IsDigit(c)
    ensures Runs([c] + text) == Runs(text)
  {
    assert ([c] + text)[1..] == text;
  }

  lemma {:induction false} MentionedOnce(numbers: seq<nat>, valid: set<nat>)
    requires forall i, j :: 0 <= i < j < |numbers| ==> numbers[i] != numbers[j]
    requires forall n :: n in numbers ==> n in valid
    ensures Mentioned(Decimals(numbers), valid) == numbers
  {
    if numbers != [] {
      var front, last := numbers[..|numbers| - 1], numbers[|numbers| - 1];
      MentionedOnce(front, valid);
      ValueOfDecimal(last);
      assert Decimals(numbers)[..|numbers| - 1] == Decimals(front);
      assert numbers == front + [last];
    }
  }

  lemma TagStarts(raw: string, i: nat)
    requires i < |raw|
    ensures TagAt(raw, i) ==> raw[i] == '<'
  {
    assert TagAt(raw, i) ==> raw[i] == raw[i..i + |THINK_END|][0];
  }

  lemma {:induction false} NoTag(raw: string, below: nat)
    requires below <= |raw| && '<' !in raw
    ensures AfterThinking(raw, below) == raw
  {
    if below > 0 {
      hide TagAt;
      TagStarts(raw, below - 1);
      assert raw[below - 1] in raw;
      NoTag(raw, below - 1);
    }
  }

  /** A comma-separated list of distinct shown numbers parses back to itself. */
  lemma {:induction false} PrintedListParsesBack(numbers: seq<nat>, valid: set<nat>)
    requires numbers != [] && forall i, j :: 0 <= i < j < |numbers| ==> numbers[i] != numbers[j]
    requires forall n :: n in numbers ==> n in valid && |Decimal(n)| <= MAX_DIGITS
    ensures TryParsed(CommaList(numbers), valid) == Success(Some(numbers))
  {
    var raw := CommaList(numbers);
    hide CommaList, Decimal, Mentioned, Runs, LeadingDigits, AfterThinking;
    RunsOfList(numbers);
    ListHasNoTag(numbers);
    MentionedOnce(numbers, valid);
    forall run | run in Decimals(numbers) ensures |run| <= MAX_DIGITS {
      var i :| 0 <= i < |numbers| && Decimals(numbers)[i] == run;
      assert numbers[i] in numbers;
    }
  }

  lemma ListHasNoTag(numbers: seq<nat>)
    ensures var raw := CommaList(numbers); AfterThinking(raw, |raw|) == raw
  {
    var raw := CommaList(numbers);
    ListChars(numbers);
    hide CommaList;
    NoTag(raw, |raw|);
  }

  // ----- what the parser takes from a reply, and what the model is shown -----

  /** The answer starts behind the tag at `i`, and no later tag starts below the bound. */
  predicate Follows(raw: string, answer: string, i: nat, below: nat) {
    && i < below <= |raw| && raw == raw[..i] + "</think>" + answer
    && forall j :: i < j < below ==> !("</think>" <= raw[j..])
  }

  /** No tag starts below the bound. */
  predicate Untagged(raw: string, below: nat) {
    below <= |raw| && forall j :: 0 <= j < below ==> !("</think>" <= raw[j..])
  }

  /** What is read is what follows the last closing tag, or the whole reply if there is none. */
  lemma {:induction false} AnswerFollowsLastTag(raw: string, below: nat) returns (i: nat)
    requires below <= |raw|
    ensures Follows(raw, AfterThinking(raw, below), i, below) ||
            (AfterThinking(raw, below) == raw && Untagged(raw, below))
    decreases below
  {
    hide TagAt, Follows, Untagged;
    i := 0;
    if below > 0 {
      TagIsPrefix(raw, below - 1);
      if TagAt(raw, below - 1) {
        i := below - 1;
        LastTag(raw, i);
      } else {
        i := AnswerFollowsLastTag(raw, below - 1);
        NoTagMore(raw, AfterThinking(raw, below), i, below - 1);
      }
    } else {
      NoTagYet(raw);
    }
  }

  lemma LastTag(raw: string, i: nat)
    requires i < |raw| && TagAt(raw, i)
    ensures Follows(raw, raw[i + 8..], i, i + 1)
  {
    TagIsPrefix(raw, i);
  }

  lemma NoTagMore(raw: string, answer: string, i: nat, k: nat)
    requires k < |raw| && !("</think>" <= raw[k..])
    ensures Follows(raw, answer, i, k) ==> Follows(raw, answer, i, k + 1)
    ensures Untagged(raw, k) ==> Untagged(raw, k + 1)
  {
  }

  lemma NoTagYet(raw: string)
    ensures Untagged(raw, 0)
  {
  }

  lemma TagIsPrefix(raw: string, i: nat)
    requires i < |raw|
    ensures TagAt(raw, i) <==> "</think>" <= raw[i..]
    ensures TagAt(raw, i) ==> i + 8 <= |raw| && raw == raw[..i] + "</think>" + raw[i + 8..]
  {
    if i + 8 <= |raw| {
      assert raw[i..][..8] == raw[i..i + 8];
      assert raw == raw[..i] + raw[i..i + 8] + raw[i + 8..];
    }
  }

  predicate NoDigit(text: string) {
    forall i :: 0 <= i < |text| ==> !('0' <= text[i] <= '9')
  }

  /** Something that is no digit stands before every piece but the first. */
  predicate Apart(gaps: seq<string>) {
    && (forall i :: 0 <= i < |gaps| ==> NoDigit(gaps[i]))
    && (forall i :: 0 < i < |gaps| - 1 ==> gaps[i] != "")
  }

  lemma {:induction false} DigitsEnd(text: string)
    ensures var run := LeadingDigits(text); |run| < |text| ==> !IsDigit(text[|run|])
  {
    if text != "" && IsDigit(text[0]) {
      DigitsEnd(text[1..]);
    }
  }

  /** The gaps around the numbers of a text, and that the text starts with the first of them. */
  predicate Splits(text: string, gaps: seq<string>, runs: seq<string>) {
    && |gaps| == |runs| + 1 && Apart(gaps) && text == Weave(gaps, runs)
    && (text != "" && !IsDigit(text[0]) ==> gaps[0] != "")
  }

  /** The numbers of a text are its longest stretches of digits, from left to right, and nothing else is a digit. */
  lemma {:induction false} RunsAreMaximal(text: string) returns (gaps: seq<string>)
    ensures |gaps| == |Runs(text)| + 1 && Splits(text, gaps, Runs(text))
    decreases |text|
  {
    hide Splits, LeadingDigits;
    if text == "" {
      gaps := [""];
      NothingSplits();
    } else {
      DigitsEnd(text);
      var run := LeadingDigits(text);
      if run == "" {
        var rest := RunsAreMaximal(text[1..]);
        gaps := [[text[0]] + rest[0]] + rest[1..];
        OtherSplits(text, rest, Runs(text[1..]));
      } else {
        var rest := RunsAreMaximal(text[|run|..]);
        gaps := [""] + rest;
        RunSplits(text, run, rest, Runs(text[|run|..]));
      }
    }
  }

  lemma NothingSplits()
    ensures Splits("", [""], [])
  {
  }

  lemma OtherSplits(text: string, rest: seq<string>, runs: seq<string>)
    requires text != "" && !IsDigit(text[0]) && Splits(text[1..], rest, runs)
    ensures Splits(text, [[text[0]] + rest[0]] + rest[1..], runs)
  {
    WeaveFirst([text[0]], rest, runs);
    assert text == [text[0]] + text[1..];
  }

  lemma RunSplits(text: string, run: string, rest: seq<string>, runs: seq<string>)
    requires run <= text && run != "" && Digits(run) && (|run| < |text| ==> !IsDigit(text[|run|]))
    requires Splits(text[|run|..], rest, runs) && (|run| == |text| ==> runs == [])
    ensures Splits(text, [""] + rest, [run] + runs)
  {
    assert text == run + text[|run|..];
    assert ([""] + rest)[1..] == rest && ([run] + runs)[1..] == runs;
    assert text[0] == run[0];
  }

  lemma WeaveFirst(head: string, gaps: seq<string>, pieces: seq<string>)
    requires |gaps| == |pieces| + 1
    ensures Weave([head + gaps[0]] + gaps[1..], pieces) == head + Weave(gaps, pieces)
  {
    assert ([head + gaps[0]] + gaps[1..])[1..] == gaps[1..];
  }

  /** Reading fails exactly on a number of more than 4300 digits. */
  lemma FailsOnLongNumbers(raw: string, valid: set<nat>)
    ensures TryParsed(raw, valid).Failure? <==> exists run :: run in Runs(AfterThinking(raw, |raw|)) && |run| > 4300
  {
  }

  /** The first number in an event as the model is shown it is its sequence number. */
  lemma ShownNumberReadsBack(e: Event)
    ensures RenderEvent(e) == "[" + (Decimal(e.sequence) + ("] " + e.rawType + ": " + e.payload))
    ensures Runs(RenderEvent(e)) != [] && Value(Runs(RenderEvent(e))[0]) == e.sequence
  {
    RenderedParts(e);
    hide Decimal, RenderEvent, Runs;
    var rest := "] " + e.rawType + ": " + e.payload;
    ValueOfDecimal(e.sequence);
    FirstRun(Decimal(e.sequence), rest);
    SkipOther('[', Decimal(e.sequence) + rest);
  }

  lemma RenderedParts(e: Event)
    ensures RenderEvent(e) == ['['] + (Decimal(e.sequence) + ("] " + e.rawType + ": " + e.payload))
  {
    hide Decimal;
  }

  /** What the shown lines of these events come to, one after the other. */
  function ShownTokens(events: seq<Event>, tokenCount: TokenCount): nat {
    if events == [] then 0
    else
      var e := events[0];
      tokenCount("[" + (Decimal(e.sequence) + ("] " + e.rawType + ": " + e.payload)))
      + ShownTokens(events[1..], tokenCount)
  }

  /** The budget is spent on what the model is shown: the tokens of each event's whole line. */
  lemma {:induction false} CostsAreShownTokens(events: seq<Event>, tokenCount: TokenCount)
    ensures Sum(Costs(events, tokenCount)) == ShownTokens(events, tokenCount)
  {
    hide RenderEvent, Decimal;
    if events != [] {
      CostsAreShownTokens(events[1..], tokenCount);
      assert Costs(events, tokenCount)[1..] == Costs(events[1..], tokenCount);
      RenderedParts(events[0]);
    }
  }
}
