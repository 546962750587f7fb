/** `ansina.auth.clock`: the ISO 8601 text every stored timestamp goes through. */
module Clock {
  import opened Wrappers
  import opened Text

  /** A UTC `datetime`, microsecond resolution, proleptic Gregorian calendar. */
  datatype DateTime = DateTime(year: nat, month: nat, day: nat, hour: nat, minute: nat, second: nat, micro: nat) {
    predicate Valid() {
      && 1 <= year <= 9999 && 1 <= month <= 12 && 1 <= day <= DaysInMonth(year, month)
      && hour < 24 && minute < 60 && second < 60 && micro < 1_000_000
    }
  }

  predicate IsLeap(year: nat) {
    year % 4 == 0 && (year % 100 != 0 || year % 400 == 0)
  }

  function DaysInMonth(year: nat, month: nat): nat {
    if month == 2 then if IsLeap(year) then 29 else 28
    else if month in {4, 6, 9, 11} then 30
    else 31
  }

  function DaysBeforeYear(year: nat): nat
    requires year >= 1
  {
    var y := year - 1;
    y * 365 + y / 4 - y / 100 + y / 400
  }

  function DaysBeforeMonth(year: nat, month: nat): nat
    requires month >= 1
  {
    if month == 1 then 0 else DaysBeforeMonth(year, month - 1) + DaysInMonth(year, month - 1)
  }

  function Ordinal(d: DateTime): nat
    requires d.Valid()
  {
    DaysBeforeYear(d.year) + DaysBeforeMonth(d.year, d.month) + d.day
  }

  function Seconds(d: DateTime): nat
    requires d.Valid()
  {
    ((Ordinal(d) * 24 + d.hour) * 60 + d.minute) * 60 + d.second
  }

  /** Microseconds on the proleptic calendar: the instants `datetime` compares and subtracts. */
  function Micros(d: DateTime): nat
    requires d.Valid()
  {
    Seconds(d) * 1_000_000 + d.micro
  }

  /** What survives a round trip through a stored column: the instant cut to whole milliseconds. */
  function Trunc(t: int): (r: int)
    ensures r <= t < r + 1000
  {
    t - t % 1000
  }

  lemma TruncIsWhole(t: int)
    ensures Trunc(t) == 1000 * (t / 1000)
    ensures Trunc(t) % 1000 == 0
  {
    assert t == 1000 * (t / 1000) + t % 1000;
  }

  lemma TruncGrows(s: int, t: int)
    requires s <= t
    ensures Trunc(s) <= Trunc(t)
  {
    TruncIsWhole(s);
    TruncIsWhole(t);
    hide Trunc;
    assert s / 1000 <= t / 1000;
  }

  /** The whole millisecond `s` is at or before the stored instant exactly if it is at or before the instant. */
  lemma TruncIsLast(s: int, t: int)
    requires s % 1000 == 0
    ensures s <= Trunc(t) <==> s <= t
  {
    TruncIsWhole(t);
    var q := s / 1000;
    assert s == 1000 * q;
    hide Trunc;
  }

  function TimeText(d: DateTime): string {
    "T" + (Pad(d.hour, 2) + (":" + (Pad(d.minute,
        2) + (":" + (Pad(d.second, 2) + ("." + (Pad(d.micro / 1000, 3) + "Z")))))))
  }

  /** `strftime("%Y-%m-%dT%H:%M:%S.%f")[:-3] + "Z"`, for the years `%Y` prints with four digits. */
  function Iso(d: DateTime): string
    requires d.Valid() && d.year >= 1000
  {
    Pad(d.year, 4) + ("-" + (Pad(d.month, 2) + ("-" + (Pad(d.day, 2) + TimeText(d)))))
  }

  function Expect(s: string, c: char): Option<string> {
    if s != [] && s[0] == c then Some(s[1..]) else None
  }

  /** One numeric field followed by the separator the format string puts behind it. */
  function Field(s: string, w: nat, separator: char): Option<(nat, string)> {
    match TakeNumber(s, w)
    case None => None
    case Some((n, rest)) =>
      match Expect(rest, separator)
      case None => None
      case Some(tail) => Some((n, tail))
  }

  /** Hour, minute, second and millisecond, up to the closing `Z`. */
  function ParseTime(s: string): Option<(nat, nat, nat, nat)> {
    match Field(s, 2, ':') case None => None case Some((hour, s1)) =>
    match Field(s1, 2, ':') case None => None case Some((minute, s2)) =>
    match Field(s2, 2, '.') case None => None case Some((second, s3)) =>
    match Field(s3, 3, 'Z') case None => None case Some((milli, s4)) =>
    if s4 == [] then Some((hour, minute, second, milli)) else None
  }

  /** `strptime(value, "%Y-%m-%dT%H:%M:%S.%fZ")` on the fixed layout `Iso` writes. */
  function ParseIso(s: string): Option<DateTime> {
    match Field(s, 4, '-') case None => None case Some((year, s1)) =>
    match Field(s1, 2, '-') case None => None case Some((month, s2)) =>
    match Field(s2, 2, 'T') case None => None case Some((day, s3)) =>
    match ParseTime(s3) case None => None case Some((hour, minute, second, milli)) =>
    var d := DateTime(year, month, day, hour, minute, second, 1000 * milli);
    if d.Valid() then Some(d) else None
  }

  lemma FieldReadsPad(n: nat, w: nat, separator: char, rest: string)
    requires n < Pow10(w)
    ensures Field(Pad(n, w) + ([separator] + rest), w, separator) == Some((n, rest))
  {
    TakeNumberReadsPad(n, w, [separator] + rest);
  }

  lemma Widths()
    ensures Pow10(2) == 100 && Pow10(3) == 1000 && Pow10(4) == 10000
  {
    assert Pow10(1) == 10;
  }

  lemma ParseTimeReadsTimeText(d: DateTime)
    requires d.Valid()
    ensures "T" + TimeText(d)[1..] == TimeText(d)
    ensures ParseTime(TimeText(d)[1..]) == Some((d.hour, d.minute, d.second, d.micro / 1000))
  {
    Widths();
    var t3 := Pad(d.micro / 1000, 3) + ("Z" + "");
    assert t3 == Pad(d.micro / 1000, 3) + "Z";
    var t2 := Pad(d.second, 2) + ("." + t3);
    var t1 := Pad(d.minute, 2) + (":" + t2);
    assert TimeText(d)[1..] == Pad(d.hour, 2) + (":" + t1);
    FieldReadsPad(d.hour, 2, ':', t1);
    FieldReadsPad(d.minute, 2, ':', t2);
    FieldReadsPad(d.second, 2, '.', t3);
    FieldReadsPad(d.micro / 1000, 3, 'Z', "");
  }

  /** `parse_iso` inverts `iso` up to the dropped microseconds. */
  lemma {:induction false} ParseInvertsIso(d: DateTime)
    requires d.Valid() && d.year >= 1000
    ensures var back := d.(micro := 1000 * (d.micro / 1000));
            && ParseIso(Iso(d)) == Some(back)
            && back.Valid() && Micros(back) == Trunc(Micros(d))
  {
    Widths();
    ParseTimeReadsTimeText(d);
    var t3 := TimeText(d)[1..];
    var t2 := Pad(d.day, 2) + ("T" + t3);
    var t1 := Pad(d.month, 2) + ("-" + t2);
    FieldReadsPad(d.year, 4, '-', t1);
    FieldReadsPad(d.month, 2, '-', t2);
    FieldReadsPad(d.day, 2, 'T', t3);
    TruncateMicros(d);
  }

  lemma TruncateMicros(d: DateTime)
    requires d.Valid()
    ensures Trunc(Micros(d)) == Seconds(d) * 1_000_000 + d.micro / 1000 * 1000
  {
    var t := Micros(d);
    assert t == 1000 * (1000 * Seconds(d) + d.micro / 1000) + d.micro % 1000;
  }

  /** The calendar order of two stored timestamps: field by field, milliseconds last. */
  predicate FieldsBefore(a: DateTime, b: DateTime) {
    || a.year < b.year
    || (a.year == b.year && (
          || a.month < b.month
          || (a.month == b.month && (
                || a.day < b.day
                || (a.day == b.day && TimeBefore(a, b))))))
  }

  predicate TimeBefore(a: DateTime, b: DateTime) {
    || a.hour < b.hour
    || (a.hour == b.hour && (
          || a.minute < b.minute
          || (a.minute == b.minute && (
                || a.second < b.second
                || (a.second == b.second && a.micro / 1000 < b.micro / 1000)))))
  }

  lemma NumberThenText(a: nat, b: nat, w: nat, u: string, v: string)
    requires a < Pow10(w) && b < Pow10(w)
    ensures Less(Pad(a, w) + u, Pad(b, w) + v) <==> a < b || (a == b && Less(u, v))
  {
    PadOrder(a, b, w);
    LessOnEqualPrefixes(Pad(a, w), Pad(b, w), u, v);
  }

  lemma SameSeparator(c: char, u: string, v: string)
    ensures Less([c] + u, [c] + v) <==> Less(u, v)
  {
    LessOnEqualPrefixes([c], [c], u, v);
  }

  lemma TimeTextOrder(a: DateTime, b: DateTime)
    requires a.Valid() && b.Valid()
    ensures Less(TimeText(a), TimeText(b)) <==> TimeBefore(a, b)
  {
    Widths();
    var f, g := Pad(a.micro / 1000, 3) + "Z", Pad(b.micro / 1000, 3) + "Z";
    NumberThenText(a.micro / 1000, b.micro / 1000, 3, "Z", "Z");
    assert !Less("Z", "Z") by { assert "Z"[1..] == ""; }
    SameSeparator('.', f, g);
    var s, t := Pad(a.second, 2) + ("." + f), Pad(b.second, 2) + ("." + g);
    NumberThenText(a.second, b.second, 2, "." + f, "." + g);
    SameSeparator(':', s, t);
    var m, n := Pad(a.minute, 2) + (":" + s), Pad(b.minute, 2) + (":" + t);
    NumberThenText(a.minute, b.minute, 2, ":" + s, ":" + t);
    SameSeparator(':', m, n);
    NumberThenText(a.hour, b.hour, 2, ":" + m, ":" + n);
    SameSeparator('T', Pad(a.hour, 2) + (":" + m), Pad(b.hour, 2) + (":" + n));
  }

  lemma IsoOrderIsFieldOrder(a: DateTime, b: DateTime)
    requires a.Valid() && b.Valid() && a.year >= 1000 && b.year >= 1000
    ensures Less(Iso(a), Iso(b)) <==> FieldsBefore(a, b)
  {
    Widths();
    TimeTextOrder(a, b);
    NumberThenText(a.day, b.day, 2, TimeText(a), TimeText(b));
    var d, e := Pad(a.day, 2) + TimeText(a), Pad(b.day, 2) + TimeText(b);
    SameSeparator('-', d, e);
    NumberThenText(a.month, b.month, 2, "-" + d, "-" + e);
    var m, n := Pad(a.month, 2) + ("-" + d), Pad(b.month, 2) + ("-" + e);
    SameSeparator('-', m, n);
    NumberThenText(a.year, b.year, 4, "-" + m, "-" + n);
  }

  lemma {:induction false} YearsAdvance(x: nat, y: nat)
    requires 1 <= x < y
    ensures DaysBeforeYear(x) + DaysBeforeMonth(x, 12) + 31 <= DaysBeforeYear(y)
    decreases y - x
  {
    YearLength(x);
    if x + 1 < y {
      YearsAdvance(x + 1, y);
    }
  }

  lemma MonthsOfYear(y: nat)
    requires y >= 1
    ensures DaysBeforeMonth(y, 12) + 31 == if IsLeap(y) then 366 else 365
  {
    assert DaysBeforeMonth(y, 2) == 31;
    assert DaysBeforeMonth(y, 4) == 62 + DaysInMonth(y, 2);
    assert DaysBeforeMonth(y, 6) == 123 + DaysInMonth(y, 2);
    assert DaysBeforeMonth(y, 8) == 184 + DaysInMonth(y, 2);
    assert DaysBeforeMonth(y, 10) == 245 + DaysInMonth(y, 2);
  }

  lemma LeapCarry(y: nat)
    requires y >= 1
    ensures y / 4 - (y - 1) / 4 == if y % 4 == 0 then 1 else 0
    ensures y / 100 - (y - 1) / 100 == if y % 100 == 0 then 1 else 0
    ensures y / 400 - (y - 1) / 400 == if y % 400 == 0 then 1 else 0
    ensures (y % 400 == 0 ==> y % 100 == 0) && (y % 100 == 0 ==> y % 4 == 0)
  {
  }

  lemma {:induction false} YearLength(y: nat)
    requires y >= 1
    ensures DaysBeforeMonth(y, 12) + 31 == if IsLeap(y) then 366 else 365
    ensures DaysBeforeYear(y + 1) == DaysBeforeYear(y) + DaysBeforeMonth(y, 12) + 31
  {
    MonthsOfYear(y);
    LeapCarry(y);
    hide DaysBeforeMonth;
  }

  lemma {:induction false} MonthsAdvance(year: nat, x: nat, y: nat)
    requires 1 <= x < y <= 12
    ensures DaysBeforeMonth(year, x) + DaysInMonth(year, x) <= DaysBeforeMonth(year, y)
    decreases y - x
  {
    if x + 1 < y {
      MonthsAdvance(year, x + 1, y);
    }
  }

  lemma MonthFits(d: DateTime)
    requires d.Valid()
    ensures 1 <= DaysBeforeMonth(d.year, d.month) + d.day <= DaysBeforeMonth(d.year, 12) + 31
  {
    if d.month < 12 {
      MonthsAdvance(d.year, d.month, 12);
    }
  }

  lemma EarlierDateEarlierOrdinal(a: DateTime, b: DateTime)
    requires a.Valid() && b.Valid()
    requires a.year < b.year || (a.year == b.year && (a.month < b.month || (a.month == b.month && a.day < b.day)))
    ensures Ordinal(a) < Ordinal(b)
  {
    if a.year < b.year {
      YearsAdvance(a.year, b.year);
      MonthFits(a);
      MonthFits(b);
    } else if a.month < b.month {
      MonthsAdvance(a.year, a.month, b.month);
    }
  }

  lemma EarlierTimeEarlierSecond(a: DateTime, b: DateTime)
    requires a.Valid() && b.Valid() && FieldsBefore(a, b)
    ensures Seconds(a) < Seconds(b) || (Seconds(a) == Seconds(b) && a.micro / 1000 < b.micro / 1000)
  {
    if a.year != b.year || a.month != b.month || a.day != b.day {
      EarlierDateEarlierOrdinal(a, b);
    }
  }

  lemma EarlierFieldsEarlierMillis(a: DateTime, b: DateTime)
    requires a.Valid() && b.Valid() && FieldsBefore(a, b)
    ensures Trunc(Micros(a)) < Trunc(Micros(b))
  {
    EarlierTimeEarlierSecond(a, b);
    TruncateMicros(a);
    TruncateMicros(b);
  }

  /**
   * Stored timestamps compare as text exactly as their instants, cut to
   * milliseconds, compare as numbers. Every other model of this project compares
   * `Trunc` values where the SQL compares text, on the strength of this.
   */
  lemma {:induction false} IsoOrderIsTimeOrder(a: DateTime, b: DateTime)
    requires a.Valid() && b.Valid() && a.year >= 1000 && b.year >= 1000
    ensures Less(Iso(a), Iso(b)) <==> Trunc(Micros(a)) < Trunc(Micros(b))
  {
    IsoOrderIsFieldOrder(a, b);
    if FieldsBefore(a, b) {
      EarlierFieldsEarlierMillis(a, b);
    } else if FieldsBefore(b, a) {
      EarlierFieldsEarlierMillis(b, a);
    } else {
      TruncateMicros(a);
      TruncateMicros(b);
    }
  }

  lemma {:induction false} ValueOfPad(n: nat, w: nat)
    requires n < Pow10(w)
    ensures Digits(Pad(n, w)) && Value(Pad(n, w)) == n
  {
    if w > 0 {
      ValueOfPad(n / 10, w - 1);
      assert Pad(n, w)[..w - 1] == Pad(n / 10, w - 1);
    }
  }

  predicate Reads(text: string, from: nat, to: nat, n: nat) {
    from <= to <= |text| && Digits(text[from..to]) && Value(text[from..to]) == n
  }

  /** A field of fixed width and its separator, and where the rest of the text begins. */
  lemma FieldAt(text: string, from: nat, n: nat, w: nat, separator: char, after: string)
    requires n < Pow10(w) && from <= |text| && text[from..] == Pad(n, w) + ([separator] + after)
    ensures |text| == from + w + 1 + |after| && text[from + w] == separator && text[from + w + 1..] == after
    ensures Reads(text, from, from + w, n)
  {
    ValueOfPad(n, w);
    var field := Pad(n, w) + ([separator] + after);
    assert text[from..][..w] == field[..w] == Pad(n, w);
    assert text[from..from + w] == Pad(n, w);
    assert text[from..][w] == separator;
    assert text[from..][w + 1..] == after;
  }

  /** The text's layout: `YYYY-MM-DDTHH:MM:SS.mmmZ`, every field a number of fixed width. */
  lemma IsoLayout(d: DateTime)
    requires d.Valid() && d.year >= 1000
    ensures var text := Iso(d);
            && |text| == 24 && text[4] == '-' && text[7] == '-' && text[10] == 'T' && text[13] == ':'
            && text[16] == ':' && text[19] == '.' && text[23] == 'Z'
            && Reads(text, 0, 4, d.year) && Reads(text, 5, 7, d.month) && Reads(text, 8, 10, d.day)
            && Reads(text, 11, 13, d.hour) && Reads(text, 14, 16, d.minute) && Reads(text, 17, 19, d.second)
            && Reads(text, 20, 23, d.micro / 1000)
  {
    Widths();
    hide Reads, Pow10, Pad;
    var text := Iso(d);
    var f6 := Pad(d.micro / 1000, 3) + ("Z" + "");
    var f5 := Pad(d.second, 2) + ("." + f6);
    var f4 := Pad(d.minute, 2) + (":" + f5);
    var f3 := Pad(d.hour, 2) + (":" + f4);
    var f2 := Pad(d.day, 2) + ("T" + f3);
    var f1 := Pad(d.month, 2) + ("-" + f2);
    IsoParts(d, f1, f2, f3, f4, f5, f6);
    assert text[0..] == text;
    hide Iso;
    FieldAt(text, 0, d.year, 4, '-', f1);
    FieldAt(text, 5, d.month, 2, '-', f2);
    FieldAt(text, 8, d.day, 2, 'T', f3);
    FieldAt(text, 11, d.hour, 2, ':', f4);
    FieldAt(text, 14, d.minute, 2, ':', f5);
    FieldAt(text, 17, d.second, 2, '.', f6);
    FieldAt(text, 20, d.micro / 1000, 3, 'Z', "");
  }

  lemma IsoParts(d: DateTime, f1: string, f2: string, f3: string, f4: string, f5: string, f6: string)
    requires d.Valid() && d.year >= 1000
    requires f6 == Pad(d.micro / 1000, 3) + ("Z" + "") && f5 == Pad(d.second, 2) + ("." + f6)
    requires f4 == Pad(d.minute, 2) + (":" + f5) && f3 == Pad(d.hour, 2) + (":" + f4)
    requires f2 == Pad(d.day, 2) + ("T" + f3) && f1 == Pad(d.month, 2) + ("-" + f2)
    ensures Iso(d) == Pad(d.year, 4) + ("-" + f1)
  {
    hide Pad;
    assert "Z" + "" == "Z";
  }

  function Midnight(year: nat, month: nat, day: nat): DateTime {
    DateTime(year, month, day, 0, 0, 0, 0)
  }

  /** `b` is the calendar day after `a`. */
  predicate NextDay(a: DateTime, b: DateTime) {
    || (b.year == a.year && b.month == a.month && b.day == a.day + 1)
    || (b.year == a.year && b.month == a.month + 1 && a.day == DaysInMonth(a.year, a.month) && b.day == 1)
    || (b.year == a.year + 1 && a.month == 12 && a.day == 31 && b.month == 1 && b.day == 1)
  }

  /** Days are counted without a gap, from one day to the next, over the ends of months and years. */
  lemma DaysRunOn(a: DateTime, b: DateTime)
    requires a.Valid() && b.Valid() && NextDay(a, b)
    ensures Ordinal(b) == Ordinal(a) + 1
  {
    if b.year == a.year + 1 {
      YearLength(a.year);
      assert DaysBeforeMonth(b.year, 1) == 0;
      hide DaysBeforeMonth;
    }
  }

  /** Known days: the epoch, a leap day of a century, the day after the end of February 2100, the end of 2024. */
  lemma KnownDays()
    ensures Ordinal(Midnight(1970, 1, 1)) == 719_163
    ensures Ordinal(Midnight(2000, 2, 29)) == 730_179
    ensures Ordinal(Midnight(2100, 3, 1)) == 766_704
    ensures Ordinal(Midnight(2024, 12, 31)) == 739_251
  {
    MonthsOfYear(2024);
    assert DaysBeforeMonth(2000, 2) == 31;
    assert DaysBeforeMonth(2100, 2) == 31 && DaysBeforeMonth(2100, 3) == 59;
  }
}
