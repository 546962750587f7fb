/** Decimal text, the byte order SQLite uses on it, and a text put together from pieces. */
module Text {
  import opened Wrappers

  /** `a < b` as SQLite's BINARY collation compares two ASCII columns. */
  predicate Less(a: string, b: string) {
    if b == [] then false
    else if a == [] then true
    else if a[0] != b[0] then a[0] < b[0]
    else Less(a[1..], b[1..])
  }

  function Digit(d: nat): char
    requires d < 10
  {
    '0' + d as char
  }

  function DigitValue(c: char): Option<nat> {
    if '0' <= c <= '9' then Some(c as nat - '0' as nat) else None
  }

  predicate Digits(s: string) {
    forall i :: 0 <= i < |s| ==> '0' <= s[i] <= '9'
  }

  /** `str(n)`. */
  function Decimal(n: nat): (s: string)
    ensures s != "" && Digits(s)
  {
    if n < 10 then ['0' + n as char] else Decimal(n / 10) + ['0' + (n % 10) as char]
  }

  function Value(s: string): nat
    requires Digits(s)
  {
    if s == [] then 0 else 10 * Value(s[..|s| - 1]) + (s[|s| - 1] as nat - '0' as nat)
  }

  lemma {:induction false} ValueOfDecimal(n: nat)
    ensures Value(Decimal(n)) == n
  {
    var s := Decimal(n);
    if n < 10 {
      assert s[..0] == "";
    } else {
      ValueOfDecimal(n / 10);
      assert s[..|s| - 1] == Decimal(n / 10);
    }
  }

  function Pow10(w: nat): nat {
    if w == 0 then 1 else 10 * Pow10(w - 1)
  }

  /** The `w` low decimal digits of `n`, zero padded on the left. */
  function Pad(n: nat, w: nat): (s: string)
    ensures |s| == w
    ensures forall i :: 0 <= i < w ==> '0' <= s[i] <= '9'
  {
    if w == 0 then "" else Pad(n / 10, w - 1) + [Digit(n % 10)]
  }

  /** Reads exactly `w` digits off the front of `s`. */
  function TakeNumber(s: string, w: nat): Option<(nat, string)> {
    if w == 0 then Some((0, s))
    else if |s| < w then None
    else match (TakeNumber(s[..w - 1], w - 1), DigitValue(s[w - 1]))
      case (Some((n, _)), Some(d)) => Some((10 * n + d, s[w..]))
      case _ => None
  }

  lemma {:induction false} LessOnEqualPrefixes(p: string, q: string, u: string, v: string)
    requires |p| == |q|
    ensures Less(p + u, q + v) <==> Less(p, q) || (p == q && Less(u, v))
  {
    if p == [] {
      assert p + u == u && q + v == v;
    } else {
      assert (p + u)[1..] == p[1..] + u && (q + v)[1..] == q[1..] + v;
      LessOnEqualPrefixes(p[1..], q[1..], u, v);
      assert p == [p[0]] + p[1..] && q == [q[0]] + q[1..];
    }
  }

  /** Zero padding makes text order and numeric order the same. */
  lemma {:induction false} PadOrder(a: nat, b: nat, w: nat)
    requires a < Pow10(w) && b < Pow10(w)
    ensures Less(Pad(a, w), Pad(b, w)) <==> a < b
    ensures Pad(a, w) == Pad(b, w) <==> a == b
  {
    if w > 0 {
      PadOrder(a / 10, b / 10, w - 1);
      var p, q := Pad(a / 10, w - 1), Pad(b / 10, w - 1);
      var u, v := [Digit(a % 10)], [Digit(b % 10)];
      LessOnEqualPrefixes(p, q, u, v);
      assert Pad(a, w) == p + u && Pad(b, w) == q + v;
      assert (p + u)[w - 1] == u[0] && (q + v)[w - 1] == v[0];
      assert (p + u)[..w - 1] == p && (q + v)[..w - 1] == q;
    }
  }

  lemma {:induction false} TakeNumberReadsPad(n: nat, w: nat, rest: string)
    requires n < Pow10(w)
    ensures TakeNumber(Pad(n, w) + rest, w) == Some((n, rest))
  {
    var s := Pad(n, w) + rest;
    if w == 0 {
      assert s == rest;
    } else {
      TakeNumberReadsPad(n / 10, w - 1, "");
      assert s[..w - 1] == Pad(n / 10, w - 1) + "";
      assert s[w - 1] == Digit(n % 10);
      assert s[w..] == rest;
    }
  }

  /** The gaps with a piece between each two of them. */
  function Weave(gaps: seq<string>, pieces: seq<string>): string
    requires |gaps| == |pieces| + 1
    decreases |pieces|
  {
    if pieces == [] then gaps[0] else gaps[0] + pieces[0] + Weave(gaps[1..], pieces[1..])
  }


  /** The order decides at the first place where two texts differ, and puts a text before its extensions. */
  lemma {:induction false} LessAtFirstDifference(p: string, u: string, v: string)
    requires u == "" || v == "" || u[0] != v[0]
    ensures Less(p + u, p + v) <==> v != "" && (u == "" || u[0] < v[0])
  {
    LessOnEqualPrefixes(p, p, u, v);
    LessIsIrreflexive(p);
  }

  lemma {:induction false} LessIsIrreflexive(p: string)
    ensures !Less(p, p)
  {
    if p != "" {
      LessIsIrreflexive(p[1..]);
    }
  }
}
