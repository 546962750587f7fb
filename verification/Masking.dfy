/** Cutting disjoint spans out of a text, each replaced by the same mask. */
module Masking {
  import opened Text

  const REDACTED := "***"

  datatype Span = Span(start: nat, end: nat)

  /** The spans lie in `[from, to)`, in order and apart. */
  predicate Ordered(spans: seq<Span>, from: nat, to: nat) {
    if spans == [] then from <= to
    else from <= spans[0].start <= spans[0].end && Ordered(spans[1..], spans[0].end, to)
  }

  lemma OrderedEnds(spans: seq<Span>, from: nat, to: nat)
    requires Ordered(spans, from, to)
    ensures from <= to && (spans != [] ==> spans[0].end <= to)
    decreases |spans|
  {
    if spans != [] {
      OrderedEnds(spans[1..], spans[0].end, to);
    }
  }

  /** `text[from..]` with every span replaced, all at once. */
  function Mask(text: string, spans: seq<Span>, from: nat): string
    requires Ordered(spans, from, |text|)
    decreases |spans|
  {
    OrderedEnds(spans, from, |text|);
    if spans == [] then text[from..]
    else text[from..spans[0].start] + REDACTED + Mask(text, spans[1..], spans[0].end)
  }

  predicate Occurs(needle: string, text: string) {
    exists i {:trigger OccursAt(needle, text, i)} :: 0 <= i <= |text| && OccursAt(needle, text, i)
  }

  predicate OccursAt(needle: string, text: string, i: nat) {
    i + |needle| <= |text| && text[i..i + |needle|] == needle
  }

  /** Where `str.replace` finds `needle`: leftmost first, never overlapping. */
  function Hits(text: string, needle: string, from: nat): (spans: seq<Span>)
    requires needle != "" && from <= |text|
    ensures Ordered(spans, from, |text|)
    decreases |text| - from
  {
    if from + |needle| > |text| then []
    else if OccursAt(needle, text, from) then [Span(from, from + |needle|)] + Hits(text, needle, from + |needle|)
    else
      var later := Hits(text, needle, from + 1);
      Loosen(later, from + 1, from, |text|);
      later
  }

  lemma Loosen(spans: seq<Span>, from: nat, lower: nat, to: nat)
    requires Ordered(spans, from, to) && lower <= from
    ensures Ordered(spans, lower, to)
  {
  }

  /** `text.replace(needle, REDACTED)`. */
  function Replace(text: string, needle: string): string
    requires needle != ""
  {
    Mask(text, Hits(text, needle, 0), 0)
  }

  /** A secret that no mask put next to it can complete. */
  predicate Clean(secret: string) {
    secret != "" && secret[0] != '*' && secret[|secret| - 1] != '*' && !Occurs(REDACTED, secret)
  }

  lemma Found(needle: string, text: string, i: nat)
    requires OccursAt(needle, text, i)
    ensures Occurs(needle, text)
  {
  }

  /** A clean secret never straddles a mask. */
  lemma NeverAcrossMask(secret: string, left: string, right: string)
    requires Clean(secret) && Occurs(secret, left + REDACTED + right)
    ensures Occurs(secret, left) || Occurs(secret, right)
  {
    var text, n, l := left + REDACTED + right, |secret|, |left|;
    var i: nat :| i <= |text| && OccursAt(secret, text, i);
    if i + n <= l {
      assert left[i..i + n] == text[i..i + n];
      Found(secret, left, i);
    } else if i >= l + 3 {
      assert right[i - l - 3..i - l - 3 + n] == text[i..i + n];
      Found(secret, right, i - l - 3);
    } else {
      assert forall k :: 0 <= k < n ==> secret[k] == text[i + k];
      MaskInside(text, left, right, secret, i);
    }
  }

  lemma MaskInside(text: string, left: string, right: string, secret: string, i: nat)
    requires Clean(secret) && text == left + REDACTED + right
    requires |left| < i + |secret| <= |text| && i < |left| + 3
    ensures exists k :: 0 <= k < |secret| && secret[k] != text[i + k]
  {
    var n, l := |secret|, |left|;
    if l <= i {
      assert text[i + 0] == '*';
    } else if i + n <= l + 3 {
      assert text[i + (n - 1)] == '*';
    } else if forall k :: 0 <= k < n ==> secret[k] == text[i + k] {
      assert secret[l - i] == text[i + (l - i)] && secret[l - i + 1] == text[i + (l - i + 1)];
      assert secret[l - i + 2] == text[i + (l - i + 2)];
      assert secret[l - i..l - i + 3] == REDACTED;
      Found(REDACTED, secret, l - i);
      assert false;
    }
  }

  lemma Inside(needle: string, text: string, from: nat, to: nat, within: string)
    requires from <= to <= |text| && within == text[from..to] && Occurs(needle, within)
    ensures exists i: nat :: from <= i && i + |needle| <= to && OccursAt(needle, text, i)
  {
    var i: nat :| i <= |within| && OccursAt(needle, within, i);
    SliceOfSlice(text, from, to, i, i + |needle|);
    assert OccursAt(needle, text, from + i);
  }

  lemma SliceOfSlice(text: string, from: nat, to: nat, i: nat, j: nat)
    requires from <= to <= |text| && i <= j <= to - from
    ensures text[from..to][i..j] == text[from + i..from + j]
  {
    var within := text[from..to];
    assert forall k :: i <= k < j ==> within[k] == text[from + k];
    assert |within[i..j]| == |text[from + i..from + j]|;
    assert forall k :: 0 <= k < j - i ==> within[i..j][k] == within[i + k] == text[from + i..from + j][k];
  }

  /** No stretch between two spans holds `needle`. */
  predicate GapsMiss(needle: string, text: string, spans: seq<Span>, from: nat)
    requires Ordered(spans, from, |text|)
    decreases |spans|
  {
    OrderedEnds(spans, from, |text|);
    if spans == [] then !Occurs(needle, text[from..])
    else !Occurs(needle, text[from..spans[0].start]) && GapsMiss(needle, text, spans[1..], spans[0].end)
  }

  lemma {:induction false} MaskMisses(secret: string, text: string, spans: seq<Span>, from: nat)
    requires Clean(secret) && Ordered(spans, from, |text|) && GapsMiss(secret, text, spans, from)
    ensures !Occurs(secret, Mask(text, spans, from))
    decreases |spans|
  {
    OrderedEnds(spans, from, |text|);
    if spans != [] {
      MaskMisses(secret, text, spans[1..], spans[0].end);
      var left, right := text[from..spans[0].start], Mask(text, spans[1..], spans[0].end);
      if Occurs(secret, left + REDACTED + right) {
        NeverAcrossMask(secret, left, right);
      }
    }
  }

  lemma {:induction false} AbsentLeavesGaps(needle: string, text: string, spans: seq<Span>, from: nat)
    requires Ordered(spans, from, |text|) && !Occurs(needle, text)
    ensures GapsMiss(needle, text, spans, from)
    decreases |spans|
  {
    OrderedEnds(spans, from, |text|);
    var end := if spans == [] then |text| else spans[0].start;
    assert text[from..|text|] == text[from..];
    if Occurs(needle, text[from..end]) {
      Inside(needle, text, from, end, text[from..end]);
    }
    if spans != [] {
      AbsentLeavesGaps(needle, text, spans[1..], spans[0].end);
    }
  }

  /** Masking any spans never makes a clean secret appear. */
  lemma MaskKeepsAbsent(secret: string, text: string, spans: seq<Span>)
    requires Clean(secret) && Ordered(spans, 0, |text|) && !Occurs(secret, text)
    ensures !Occurs(secret, Mask(text, spans, 0))
  {
    AbsentLeavesGaps(secret, text, spans, 0);
    MaskMisses(secret, text, spans, 0);
  }

  lemma {:induction false} HitsLeaveNone(text: string, needle: string, from: nat, at: nat)
    requires needle != "" && from <= at <= |text|
    requires forall i: nat :: from <= i < at ==> !OccursAt(needle, text, i)
    ensures Ordered(Hits(text, needle, at), from, |text|)
    ensures GapsMiss(needle, text, Hits(text, needle, at), from)
    decreases |text| - at
  {
    Loosen(Hits(text, needle, at), at, from, |text|);
    if at + |needle| > |text| {
      if Occurs(needle, text[from..]) {
        Inside(needle, text, from, |text|, text[from..]);
      }
    } else if OccursAt(needle, text, at) {
      HitsLeaveNone(text, needle, at + |needle|, at + |needle|);
      if Occurs(needle, text[from..at]) {
        Inside(needle, text, from, at, text[from..at]);
      }
      assert Hits(text, needle, at)[1..] == Hits(text, needle, at + |needle|);
    } else {
      HitsLeaveNone(text, needle, from, at + 1);
    }
  }

  /** Replacing a clean secret leaves no copy of it, not even a new one. */
  lemma ReplaceRemoves(text: string, secret: string)
    requires Clean(secret)
    ensures !Occurs(secret, Replace(text, secret))
  {
    HitsLeaveNone(text, secret, 0, 0);
    MaskMisses(secret, text, Hits(text, secret, 0), 0);
  }

  lemma {:induction false} NoHits(text: string, needle: string, from: nat)
    requires needle != "" && from <= |text| && !Occurs(needle, text)
    ensures Hits(text, needle, from) == []
    decreases |text| - from
  {
    if from + |needle| <= |text| {
      assert !OccursAt(needle, text, from);
      NoHits(text, needle, from + 1);
    }
  }

  // ----- a masked text and the original differ in the masked pieces only -----

  /** What lies between the spans, before the first and after the last. */
  function Gaps(text: string, spans: seq<Span>, from: nat): (gaps: seq<string>)
    requires Ordered(spans, from, |text|)
    ensures |gaps| == |spans| + 1
    decreases |spans|
  {
    OrderedEnds(spans, from, |text|);
    if spans == [] then [text[from..]] else [text[from..spans[0].start]] + Gaps(text, spans[1..], spans[0].end)
  }

  /** The pieces of the text that the spans cover. */
  function Covered(text: string, spans: seq<Span>): (pieces: seq<string>)
    requires forall i :: 0 <= i < |spans| ==> spans[i].start <= spans[i].end <= |text|
    ensures |pieces| == |spans| && forall i :: 0 <= i < |spans| ==> pieces[i] == text[spans[i].start..spans[i].end]
  {
    seq(|spans|, i requires 0 <= i < |spans| => text[spans[i].start..spans[i].end])
  }

  function Masks(n: nat): (masks: seq<string>)
    ensures |masks| == n && forall i :: 0 <= i < n ==> masks[i] == "***"
  {
    seq(n, _ => "***")
  }

  lemma {:induction false} SpansInside(spans: seq<Span>, from: nat, to: nat)
    requires Ordered(spans, from, to)
    ensures forall i :: 0 <= i < |spans| ==> from <= spans[i].start <= spans[i].end <= to
    decreases |spans|
  {
    OrderedEnds(spans, from, to);
    if spans != [] {
      SpansInside(spans[1..], spans[0].end, to);
      assert forall i :: 0 < i < |spans| ==> spans[i] == spans[1..][i - 1];
    }
  }

  lemma {:induction false} WeaveFirst(gap: string, gaps: seq<string>, piece: string, pieces: seq<string>)
    requires |gaps| == |pieces| + 1
    ensures Weave([gap] + gaps, [piece] + pieces) == gap + piece + Weave(gaps, pieces)
  {
    assert ([gap] + gaps)[1..] == gaps && ([piece] + pieces)[1..] == pieces;
  }

  lemma Cut(text: string, from: nat, start: nat, end: nat)
    requires from <= start <= end <= |text|
    ensures text[from..] == text[from..start] + text[start..end] + text[end..]
  {
  }

  /** The masked text is the text with a mask in place of every covered piece, and not a character else. */
  lemma {:induction false} MaskSwapsPieces(text: string, spans: seq<Span>, from: nat)
    requires Ordered(spans, from, |text|)
    ensures from <= |text| && forall i :: 0 <= i < |spans| ==> spans[i].start <= spans[i].end <= |text|
    ensures Weave(Gaps(text, spans, from), Covered(text, spans)) == text[from..]
    ensures Weave(Gaps(text, spans, from), Masks(|spans|)) == Mask(text, spans, from)
    decreases |spans|
  {
    OrderedEnds(spans, from, |text|);
    SpansInside(spans, from, |text|);
    if spans != [] {
      var first, rest := spans[0], spans[1..];
      MaskSwapsPieces(text, rest, first.end);
      var gap, gaps := text[from..first.start], Gaps(text, rest, first.end);
      assert Covered(text, spans) == [text[first.start..first.end]] + Covered(text, rest);
      assert Masks(|spans|) == ["***"] + Masks(|rest|);
      assert Gaps(text, spans, from) == [gap] + gaps;
      WeaveFirst(gap, gaps, text[first.start..first.end], Covered(text, rest));
      WeaveFirst(gap, gaps, "***", Masks(|rest|));
      Cut(text, from, first.start, first.end);
    }
  }

  lemma {:induction false} HitsAreCopies(text: string, needle: string, from: nat)
    requires needle != "" && from <= |text|
    ensures forall i :: 0 <= i < |Hits(text, needle, from)| ==>
              var s := Hits(text, needle, from)[i]; s.start <= s.end <= |text| && text[s.start..s.end] == needle
    decreases |text| - from
  {
    if from + |needle| <= |text| {
      if OccursAt(needle, text, from) {
        HitsAreCopies(text, needle, from + |needle|);
      } else {
        HitsAreCopies(text, needle, from + 1);
      }
    }
  }

  lemma {:induction false} GapsMissMeans(needle: string, text: string, spans: seq<Span>, from: nat)
    requires Ordered(spans, from, |text|) && GapsMiss(needle, text, spans, from)
    ensures forall gap :: gap in Gaps(text, spans, from) ==> !Occurs(needle, gap)
    decreases |spans|
  {
    OrderedEnds(spans, from, |text|);
    if spans != [] {
      GapsMissMeans(needle, text, spans[1..], spans[0].end);
    }
  }

  /** `str.replace`: copies of the needle become masks, what is between them holds no copy and stays as it is. */
  lemma ReplaceSwapsCopies(text: string, needle: string) returns (gaps: seq<string>)
    requires needle != ""
    ensures gaps != [] && forall gap :: gap in gaps ==> !Occurs(needle, gap)
    ensures Weave(gaps, seq(|gaps| - 1, _ => needle)) == text
    ensures Weave(gaps, Masks(|gaps| - 1)) == Replace(text, needle)
  {
    var hits := Hits(text, needle, 0);
    gaps := Gaps(text, hits, 0);
    HitsLeaveNone(text, needle, 0, 0);
    GapsMissMeans(needle, text, hits, 0);
    HitsAreCopies(text, needle, 0);
    MaskSwapsPieces(text, hits, 0);
    assert Covered(text, hits) == seq(|hits|, _ => needle);
    assert text[0..] == text;
  }
}
