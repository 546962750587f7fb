/** File names of one spool family, and the glob that finds them. */
module SpoolNames {
  import opened Text

  const EXTENSION := ".jsonl"

  function Zeros(n: nat): (s: string)
    ensures Digits(s)
  {
    seq(n, _ => '0')
  }

  /** `f"{n:013d}"`. */
  function Stamp(n: nat): (s: string)
    ensures Digits(s)
  {
    var s := Decimal(n);
    if |s| < 13 then Zeros(13 - |s|) + s else s
  }

  function ActiveName(prefix: string): string {
    prefix + EXTENSION
  }

  /** The `counter`-th name a rotation tries, at clock reading `ms`. */
  function RotatedName(prefix: string, ms: nat, counter: nat): string {
    prefix + "-" + Stamp(ms) + (if counter == 0 then "" else "-" + Decimal(counter)) + EXTENSION
  }

  /** `glob(f"{prefix}*.jsonl")`. */
  predicate InFamily(prefix: string, name: string) {
    && |prefix| + |EXTENSION| <= |name|
    && name[..|prefix|] == prefix
    && name[|name| - |EXTENSION|..] == EXTENSION
  }

  lemma NamesAreInFamily(prefix: string, ms: nat, counter: nat)
    ensures InFamily(prefix, ActiveName(prefix))
    ensures InFamily(prefix, RotatedName(prefix, ms, counter))
    ensures RotatedName(prefix, ms, counter) != ActiveName(prefix)
  {
    hide Stamp, Decimal, InFamily;
    var middle := "-" + Stamp(ms) + if counter == 0 then "" else "-" + Decimal(counter);
    Rejoin(prefix, "-" + Stamp(ms), if counter == 0 then "" else "-" + Decimal(counter));
    assert RotatedName(prefix, ms, counter) == prefix + middle + EXTENSION;
    BetweenIsInFamily(prefix, middle);
    assert prefix + "" + EXTENSION == ActiveName(prefix);
    BetweenIsInFamily(prefix, "");
  }

  lemma Rejoin(x: string, y: string, z: string)
    ensures (x + y) + z == x + (y + z)
  {
  }

  lemma BetweenIsInFamily(prefix: string, middle: string)
    ensures InFamily(prefix, prefix + middle + EXTENSION)
    ensures |prefix + middle + EXTENSION| == |prefix| + |middle| + |EXTENSION|
  {
    var name := prefix + middle + EXTENSION;
    assert name[..|prefix|] == prefix;
    assert name[|prefix + middle|..] == EXTENSION;
  }

  /** The part of a rotated name between `prefix-` and the extension. */
  function Middle(ms: nat, counter: nat): string {
    Stamp(ms) + if counter == 0 then "" else "-" + Decimal(counter)
  }

  lemma MiddleOf(prefix: string, ms: nat, counter: nat)
    ensures var x := RotatedName(prefix, ms, counter);
            && |x| >= |prefix| + 1 + |EXTENSION|
            && x[|prefix| + 1..|x| - |EXTENSION|] == Middle(ms, counter)
  {
    assert RotatedName(prefix, ms, counter) == (prefix + "-") + Middle(ms, counter) + EXTENSION;
  }

  lemma MiddlesDiffer(ms: nat, counter: nat, ms': nat, counter': nat)
    requires Middle(ms, counter) == Middle(ms', counter')
    ensures counter == counter'
  {
    assert counter > 0 ==> Middle(ms, counter)[|Stamp(ms)|] == '-';
    assert counter' > 0 ==> Middle(ms', counter')[|Stamp(ms')|] == '-';
    if counter > 0 && counter' > 0 {
      SplitAtDash(Stamp(ms), Decimal(counter), Stamp(ms'), Decimal(counter'));
      ValueOfDecimal(counter);
      ValueOfDecimal(counter');
    }
  }

  /** No two tries of one rotation are the same file, whatever the clock reads. */
  lemma TriesDiffer(prefix: string, ms: nat, counter: nat, ms': nat, counter': nat)
    requires RotatedName(prefix, ms, counter) == RotatedName(prefix, ms', counter')
    ensures counter == counter'
  {
    MiddleOf(prefix, ms, counter);
    MiddleOf(prefix, ms', counter');
    MiddlesDiffer(ms, counter, ms', counter');
  }

  lemma SplitAtDash(a: string, b: string, c: string, d: string)
    requires Digits(a) && Digits(c) && a + ("-" + b) == c + ("-" + d)
    ensures a == c && b == d
  {
    var s := a + ("-" + b);
    assert s[|a|] == '-' && s[|c|] == '-';
    assert s[..|a|] == a && s[..|c|] == c && s[|a| + 1..] == b && s[|c| + 1..] == d;
  }

  lemma CommonName(p: string, q: string, name: string)
    requires InFamily(p, name)
    ensures InFamily(q, name) ==> p <= q || q <= p
  {
    if InFamily(q, name) && |p| <= |q| {
      assert name[..|q|][..|p|] == name[..|p|];
    } else if InFamily(q, name) {
      assert name[..|p|][..|q|] == name[..|q|];
    }
  }

  /**
   * Two families sharing a directory never see each other's files exactly when neither
   * prefix begins with the other.
   */
  lemma FamiliesAreApart(p: string, q: string)
    ensures (forall name :: !(InFamily(p, name) && InFamily(q, name))) <==> !(p <= q) && !(q <= p)
  {
    if p <= q {
      assert InFamily(p, ActiveName(q)) && InFamily(q, ActiveName(q));
    } else if q <= p {
      assert InFamily(p, ActiveName(p)) && InFamily(q, ActiveName(p));
    } else {
      forall name | InFamily(p, name)
        ensures !InFamily(q, name)
      {
        CommonName(p, q, name);
      }
    }
  }

  /** The family's files are those whose names are the prefix, anything, and the extension. */
  lemma FamilyIsGlob(prefix: string, name: string)
    ensures InFamily(prefix, name) <==> exists middle :: name == prefix + middle + ".jsonl"
  {
    if InFamily(prefix, name) {
      var middle := name[|prefix|..|name| - |EXTENSION|];
      assert name == prefix + middle + ".jsonl";
    } else if middle :| name == prefix + middle + ".jsonl" {
      BetweenIsInFamily(prefix, middle);
    }
  }

  lemma {:induction false} PadOfDecimal(n: nat, w: nat)
    requires n < Pow10(w) && w > 0
    ensures |Decimal(n)| <= w && Pad(n, w) == Zeros(w - |Decimal(n)|) + Decimal(n)
  {
    if n < 10 {
      ZerosPad(w - 1);
    } else {
      PadOfDecimal(n / 10, w - 1);
      assert Zeros(w - |Decimal(n)|) == Zeros(w - 1 - |Decimal(n / 10)|);
    }
  }

  lemma {:induction false} ZerosPad(w: nat)
    ensures Pad(0, w) == Zeros(w)
  {
    if w > 0 {
      ZerosPad(w - 1);
      assert Zeros(w) == Zeros(w - 1) + ['0'];
    }
  }

  lemma StampIsPad(n: nat)
    requires n < Pow10(13)
    ensures Stamp(n) == Pad(n, 13) == Zeros(13 - |Decimal(n)|) + Decimal(n) && |Decimal(n)| <= 13
  {
    PadOfDecimal(n, 13);
    hide Decimal, Pad, Pow10;
    assert Zeros(0) + Decimal(n) == Decimal(n);
  }

  /** Up to the year 2286 the names of a family's rotated files sort as the clock readings they were made at. */
  lemma StampsSortByTime(a: nat, b: nat)
    requires a < Pow10(13) && b < Pow10(13)
    ensures |Stamp(a)| == 13 && Value(Stamp(a)) == a
    ensures Less(Stamp(a), Stamp(b)) <==> a < b
  {
    hide *;
    StampIsPad(a);
    StampIsPad(b);
    PadOrder(a, b, 13);
    ValueOfPadded(13 - |Decimal(a)|, Decimal(a));
    ValueOfDecimal(a);
  }

  lemma {:induction false} ValueOfPadded(z: nat, s: string)
    requires Digits(s)
    ensures Value(Zeros(z) + s) == Value(s)
    decreases z + |s|
  {
    if s != "" {
      ValueOfPadded(z, s[..|s| - 1]);
      assert (Zeros(z) + s)[..z + |s| - 1] == Zeros(z) + s[..|s| - 1];
    } else if z > 0 {
      ValueOfPadded(z - 1, s);
      assert (Zeros(z) + s)[..z - 1] == Zeros(z - 1) + s;
    }
  }

  /** A rotated file is called after its family and the clock, and after the first try with the try's number too. */
  lemma NamesOfTries(prefix: string, ms: nat, counter: nat)
    requires ms < Pow10(13)
    ensures RotatedName(prefix, ms, 0) == prefix + "-" + Pad(ms, 13) + ".jsonl"
    ensures counter > 0 ==>
              RotatedName(prefix, ms, counter) == prefix + "-" + Pad(ms, 13) + "-" + Decimal(counter) + ".jsonl"
  {
    StampIsPad(ms);
    hide Stamp, Pad, Decimal, Pow10;
    if counter > 0 {
      Rejoin(prefix + "-" + Pad(ms, 13), "-", Decimal(counter));
    }
  }
}
