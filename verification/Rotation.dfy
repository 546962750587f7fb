/** `ansina.telemetry.rotation`: what of the written history a rotating spool keeps. */
module Rotation {
  import opened Wrappers
  import opened Text
  import opened SpoolNames

  /** One line's UTF-8 bytes; the file holds one newline more. */
  type Line = seq<bv8>

  datatype File = File(mtime: int, lines: seq<Line>)

  function LinesSize(lines: seq<Line>): nat {
    if lines == [] then 0 else |lines[0]| + 1 + LinesSize(lines[1..])
  }

  function Size(f: File): nat {
    LinesSize(f.lines)
  }

  function TotalSize(files: seq<File>): nat {
    if files == [] then 0 else Size(files[0]) + TotalSize(files[1..])
  }

  function Flatten(files: seq<File>): seq<Line> {
    if files == [] then [] else files[0].lines + Flatten(files[1..])
  }

  predicate Increasing(files: seq<File>) {
    forall i, j :: 0 <= i < j < |files| ==> files[i].mtime < files[j].mtime
  }

  /** How many of the oldest rotated files one budget pass removes. */
  function Evicted(files: seq<File>, activeSize: nat, cutoff: int, cap: nat): (k: nat)
    ensures k <= |files|
  {
    if files == [] then 0
    else if files[0].mtime < cutoff || TotalSize(files) + activeSize > cap
        then 1 + Evicted(files[1..], activeSize, cutoff, cap)
    else 0
  }

  lemma SliceTail(files: seq<File>, k: nat)
    requires 0 < k <= |files|
    ensures files[k..] == files[1..][k - 1..]
  {
  }

  /** What is left is within the cap, or nothing rotated is left at all; and no file goes needlessly. */
  lemma {:induction false} EvictedIsLeast(files: seq<File>, activeSize: nat, cutoff: int, cap: nat)
    ensures var k := Evicted(files, activeSize, cutoff, cap);
            && (k == |files| || TotalSize(files[k..]) + activeSize <= cap)
            && (k > 0 ==> files[k - 1].mtime < cutoff || TotalSize(files[k - 1..]) + activeSize > cap)
  {
    hide TotalSize;
    var k := Evicted(files, activeSize, cutoff, cap);
    assert files[0..] == files;
    if k > 0 {
      EvictedIsLeast(files[1..], activeSize, cutoff, cap);
      SliceTail(files, k);
      if k > 1 {
        SliceTail(files, k - 1);
      }
    }
  }

  /** What is left is young. */
  lemma {:induction false} EvictedLeavesYoung(files: seq<File>, activeSize: nat, cutoff: int, cap: nat)
    requires Increasing(files)
    ensures forall i :: Evicted(files, activeSize, cutoff, cap) <= i < |files| ==> files[i].mtime >= cutoff
  {
    if Evicted(files, activeSize, cutoff, cap) > 0 {
      hide TotalSize;
      var rest := files[1..];
      EvictedLeavesYoung(rest, activeSize, cutoff, cap);
      assert forall i :: 0 < i < |files| ==> files[i] == rest[i - 1];
    }
  }

  predicate IsSuffix(s: seq<Line>, t: seq<Line>) {
    |s| <= |t| && t[|t| - |s|..] == s
  }

  lemma {:induction false} FlattenSplit(a: seq<File>, b: seq<File>)
    ensures Flatten(a + b) == Flatten(a) + Flatten(b)
  {
    if a == [] {
      assert a + b == b;
      assert Flatten(a) + Flatten(b) == Flatten(b);
    } else {
      var rest := a[1..];
      FlattenSplit(rest, b);
      assert (a + b)[1..] == rest + b;
      assert Flatten(a + b) == a[0].lines + Flatten(rest + b);
    }
  }

  lemma SuffixOfSuffix(a: seq<Line>, b: seq<Line>, written: seq<Line>)
    requires IsSuffix(a + b, written)
    ensures IsSuffix(b, written)
  {
    var n := |written| - |a + b|;
    assert written[|written| - |b|..] == written[n..][|a|..];
  }

  /** Dropping the oldest files leaves a suffix of what was there. */
  lemma DropKeepsSuffix(files: seq<File>, k: nat, written: seq<Line>)
    requires k <= |files| && IsSuffix(Flatten(files), written)
    ensures IsSuffix(Flatten(files[k..]), written)
  {
    hide *;
    Rejoined(files, k);
    FlattenSplit(files[..k], files[k..]);
    SuffixOfSuffix(Flatten(files[..k]), Flatten(files[k..]), written);
  }

  lemma Rejoined(files: seq<File>, k: nat)
    requires k <= |files|
    ensures files[..k] + files[k..] == files
  {
  }

  lemma {:induction false} SizeAppend(lines: seq<Line>, line: Line)
    ensures LinesSize(lines + [line]) == LinesSize(lines) + |line| + 1
  {
    if lines != [] {
      SizeAppend(lines[1..], line);
      assert (lines + [line])[1..] == lines[1..] + [line];
    } else {
      assert [line][1..] == [];
    }
  }

  type Directory = map<string, File>

  predicate Present(d: Directory, names: seq<string>) {
    forall i :: 0 <= i < |names| ==> names[i] in d
  }

  predicate Distinct(names: seq<string>) {
    forall i, j :: 0 <= i < j < |names| ==> names[i] != names[j]
  }

  function FilesOf(d: Directory, names: seq<string>): (fs: seq<File>)
    requires Present(d, names)
    ensures |fs| == |names| && forall i :: 0 <= i < |fs| ==> fs[i] == d[names[i]]
  {
    seq(|names|, i requires 0 <= i < |names| => d[names[i]])
  }

  /** The family's files as a log: the rotated ones in rotation order, then the active one. */
  ghost function Log(d: Directory, order: seq<string>, prefix: string): seq<File>
    requires Present(d, order)
  {
    FilesOf(d, order) + if ActiveName(prefix) in d then [d[ActiveName(prefix)]] else []
  }

  ghost predicate Covers(d: Directory, order: seq<string>, prefix: string) {
    && (forall i :: 0 <= i < |order| ==> InFamily(prefix, order[i]))
    && (forall n :: n in d && InFamily(prefix, n) ==> n == ActiveName(prefix) || n in order)
  }

  /** `order` lists the family's rotated files. */
  ghost predicate Lists(d: Directory, order: seq<string>, prefix: string) {
    && Present(d, order) && Distinct(order) && ActiveName(prefix) !in order
    && Covers(d, order, prefix)
  }

  /** The directory holds a family whose log is a suffix of everything ever written. */
  ghost predicate Spool(d: Directory, order: seq<string>, prefix: string, written: seq<Line>) {
    && Lists(d, order, prefix)
    && Increasing(Log(d, order, prefix))
    && IsSuffix(Flatten(Log(d, order, prefix)), written)
  }

  /** The files of the directory that are not the family's. */
  function Outside(d: Directory, prefix: string): Directory {
    map n | n in d && !InFamily(prefix, n) :: d[n]
  }

  lemma OutsideIsTheRest(d: Directory, d': Directory, prefix: string)
    requires Outside(d', prefix) == Outside(d, prefix)
    ensures forall n :: !InFamily(prefix, n) ==> Get(d', n) == Get(d, n)
  {
    forall n | !InFamily(prefix, n) ensures Get(d', n) == Get(d, n) {
      assert n in d <==> n in Outside(d, prefix);
      assert n in d' <==> n in Outside(d', prefix);
    }
  }

  lemma FlattenOne(f: File)
    ensures Flatten([f]) == f.lines
  {
    assert [f][1..] == [];
  }

  lemma TotalOne(f: File)
    ensures TotalSize([f]) == Size(f)
  {
    assert [f][1..] == [];
  }

  lemma {:induction false} TotalSplit(a: seq<File>, b: seq<File>)
    ensures TotalSize(a + b) == TotalSize(a) + TotalSize(b)
  {
    if a == [] {
      assert a + b == b;
    } else {
      var rest := a[1..];
      TotalSplit(rest, b);
      assert (a + b)[1..] == rest + b;
    }
  }

  /** Renaming the active file to a fresh name moves it to the end of the rotation order. */
  lemma RenameKeepsSpool(d: Directory, order: seq<string>, prefix: string, written: seq<Line>, target: string)
    requires Spool(d, order, prefix, written) && ActiveName(prefix) in d && target !in d && InFamily(prefix, target)
    ensures var active := ActiveName(prefix);
            Spool((d - {active})[target := d[active]], order + [target], prefix, written)
  {
    var active := ActiveName(prefix);
    var d', order' := (d - {active})[target := d[active]], order + [target];
    assert active !in d';
    assert Log(d', order', prefix) == Log(d, order, prefix);
    forall n | n in d' && InFamily(prefix, n) ensures n in order' {
      assert n == target || (n in d && n in order);
      assert order'[|order|] == target;
      assert order'[..|order|] == order;
    }
  }

  /** The lines before and after an append to the active file. */
  lemma AppendIsSuffix(files: seq<File>, before: File, f: File, line: Line, log: seq<Line>, written: seq<Line>)
    requires f.lines == before.lines + [line] && log == Flatten(files) + before.lines && IsSuffix(log, written)
    ensures Flatten(files + [f]) == log + [line]
    ensures IsSuffix(Flatten(files + [f]), written + [line])
  {
    FlattenSplit(files, [f]);
    FlattenOne(f);
    assert Flatten(files) + (before.lines + [line]) == log + [line];
    assert (written + [line])[|written| - |log|..] == written[|written| - |log|..] + [line];
  }

  lemma LogLines(d: Directory, order: seq<string>, prefix: string)
    requires Present(d, order)
    ensures var active := ActiveName(prefix);
            Flatten(Log(d, order, prefix)) == Flatten(FilesOf(d, order)) + if active in d then d[active].lines else []
  {
    var active := ActiveName(prefix);
    if active in d {
      FlattenSplit(FilesOf(d, order), [d[active]]);
      FlattenOne(d[active]);
    } else {
      assert Log(d, order, prefix) == FilesOf(d, order);
    }
  }

  predicate NewerThanAll(d: Directory, prefix: string, stamp: int) {
    forall n :: n in d && InFamily(prefix, n) ==> d[n].mtime < stamp
  }

  lemma NewestGoesLast(d: Directory, order: seq<string>, prefix: string, written: seq<Line>, f: File)
    requires Spool(d, order, prefix, written) && NewerThanAll(d, prefix, f.mtime)
    ensures Increasing(FilesOf(d, order) + [f])
  {
    var files := FilesOf(d, order);
    forall i | 0 <= i < |files| ensures files[i].mtime < f.mtime {
      assert order[i] in d && InFamily(prefix, order[i]);
    }
    forall i, j | 0 <= i < j < |files| ensures files[i].mtime < files[j].mtime {
      assert Log(d, order, prefix)[i].mtime < Log(d, order, prefix)[j].mtime;
    }
  }

  lemma IncreasingFiles(d: Directory, order: seq<string>, prefix: string, written: seq<Line>)
    requires Spool(d, order, prefix, written)
    ensures Increasing(FilesOf(d, order))
  {
    var files, log := FilesOf(d, order), Log(d, order, prefix);
    assert forall i :: 0 <= i < |files| ==> log[i] == files[i];
  }

  function Active(d: Directory, prefix: string): File {
    if ActiveName(prefix) in d then d[ActiveName(prefix)] else File(0, [])
  }

  function Appended(d: Directory, prefix: string, line: Line, stamp: int): Directory {
    d[ActiveName(prefix) := File(stamp, Active(d, prefix).lines + [line])]
  }

  /** Appending a line writes it at the end of the log, under a file time newer than all others. */
  lemma AppendKeepsSpool(d: Directory, order: seq<string>, prefix: string, written: seq<Line>, line: Line, stamp: int)
    requires Spool(d, order, prefix, written) && NewerThanAll(d, prefix, stamp)
    ensures Spool(Appended(d, prefix, line, stamp), order, prefix, written + [line])
  {
    var before := Active(d, prefix);
    var f := File(stamp, before.lines + [line]);
    var d' := Appended(d, prefix, line, stamp);
    assert Present(d', order) && FilesOf(d', order) == FilesOf(d, order);
    LogLines(d, order, prefix);
    AppendIsSuffix(FilesOf(d, order), before, f, line, Flatten(Log(d, order, prefix)), written);
    NewestGoesLast(d, order, prefix, written, f);
    assert Log(d', order, prefix) == FilesOf(d, order) + [f];
  }

  /** The directory without the `k` oldest rotated files. */
  function Without(d: Directory, order: seq<string>, k: nat): Directory
    requires k <= |order|
  {
    d - Names(order[..k])
  }

  lemma RemoveOldestFiles(d: Directory, order: seq<string>, prefix: string, k: nat)
    requires Lists(d, order, prefix) && k <= |order|
    ensures var d' := Without(d, order, k);
            && Lists(d', order[k..], prefix)
            && FilesOf(d', order[k..]) == FilesOf(d, order)[k..]
            && (ActiveName(prefix) in d' <==> ActiveName(prefix) in d)
            && (ActiveName(prefix) in d ==> d'[ActiveName(prefix)] == d[ActiveName(prefix)])
  {
    var d', rest := Without(d, order, k), order[k..];
    assert forall i :: 0 <= i < |rest| ==> rest[i] == order[i + k];
    assert forall i :: 0 <= i < k ==> order[..k][i] == order[i];
    assert Present(d', rest);
    forall n | n in d' && InFamily(prefix, n) ensures n == ActiveName(prefix) || n in rest {
      if n != ActiveName(prefix) {
        var i :| 0 <= i < |order| && order[i] == n;
        assert i >= k;
        assert rest[i - k] == n;
      }
    }
  }

  lemma RemoveOldestOutside(d: Directory, order: seq<string>, prefix: string, k: nat)
    requires Lists(d, order, prefix) && k <= |order|
    ensures Outside(Without(d, order, k), prefix) == Outside(d, prefix)
  {
    assert forall n :: n in order[..k] ==> InFamily(prefix, n);
  }

  /** Removing the `k` oldest rotated files leaves a spool. */
  lemma RemoveOldestKeepsSpool(d: Directory, order: seq<string>, prefix: string, written: seq<Line>, k: nat)
    requires Spool(d, order, prefix, written) && k <= |order|
    ensures Spool(Without(d, order, k), order[k..], prefix, written)
  {
    var d', rest := Without(d, order, k), order[k..];
    RemoveOldestFiles(d, order, prefix, k);
    assert Log(d', rest, prefix) == Log(d, order, prefix)[k..];
    DropKeepsSuffix(Log(d, order, prefix), k, written);
  }

  function Names(names: seq<string>): (s: set<string>)
    ensures forall n :: n in s <==> n in names
  {
    set n | n in names
  }

  function Family(d: Directory, prefix: string): set<string> {
    set n | n in d && InFamily(prefix, n)
  }

  function Aged(d: Directory, prefix: string, cutoff: int): set<string> {
    set n | n in d && InFamily(prefix, n) && n != ActiveName(prefix) && d[n].mtime < cutoff
  }

  predicate ByTime(d: Directory, names: seq<string>) {
    Present(d, names) && Increasing(FilesOf(d, names))
  }

  lemma ByTimeTail(d: Directory, names: seq<string>)
    requires ByTime(d, names) && names != []
    ensures ByTime(d, names[1..]) && Names(names[1..]) == Names(names) - {names[0]}
    ensures forall n :: n in names[1..] ==> d[names[0]].mtime < d[n].mtime
  {
    var rest := names[1..];
    assert FilesOf(d, rest) == FilesOf(d, names)[1..];
    forall n | n in rest ensures d[names[0]].mtime < d[n].mtime {
      var i :| 0 <= i < |rest| && rest[i] == n;
      assert FilesOf(d, names)[0].mtime < FilesOf(d, names)[i + 1].mtime;
    }
    forall n | n in names && n != names[0] ensures n in rest {
      var i :| 0 <= i < |names| && names[i] == n;
      assert rest[i - 1] == n;
    }
  }

  /** A set of names has one order by file time. */
  lemma {:induction false} OneOrder(d: Directory, p: seq<string>, q: seq<string>)
    requires ByTime(d, p) && ByTime(d, q) && Names(p) == Names(q)
    ensures p == q
  {
    assert p != [] ==> p[0] in Names(p);
    assert q != [] ==> q[0] in Names(q);
    if p != [] && q != [] {
      ByTimeTail(d, p);
      ByTimeTail(d, q);
      var first, rest := p[0], q[1..];
      assert first == q[0] || first in rest;
      OneOrder(d, p[1..], q[1..]);
      assert p == [p[0]] + p[1..] && q == [q[0]] + q[1..];
    }
  }

  /** `survivors.sort(key=st_mtime)`. */
  method SortByTime(d: Directory, names: set<string>) returns (sorted: seq<string>)
    requires forall n :: n in names ==> n in d
    requires forall m, n :: m in names && n in names && m != n ==> d[m].mtime != d[n].mtime
    ensures ByTime(d, sorted) && Names(sorted) == names
  {
    sorted := [];
    var rest := names;
    while rest != {}
      invariant rest <= names && ByTime(d, sorted) && Names(sorted) == names - rest
      invariant forall m, n :: m in sorted && n in rest ==> d[m].mtime < d[n].mtime
    {
      var first := Oldest(d, rest);
      assert forall i :: 0 <= i < |sorted| ==> sorted[i] in sorted;
      sorted, rest := sorted + [first], rest - {first};
    }
  }

  method Oldest(d: Directory, names: set<string>) returns (first: string)
    requires names != {} && forall n :: n in names ==> n in d
    ensures first in names && forall n :: n in names ==> d[first].mtime <= d[n].mtime
  {
    first :| first in names;
    var rest := names - {first};
    while rest != {}
      invariant rest <= names && first in names
      invariant forall n :: n in names - rest ==> d[first].mtime <= d[n].mtime
    {
      var n :| n in rest;
      if d[n].mtime < d[first].mtime {
        first := n;
      }
      rest := rest - {n};
    }
  }

  function CapEvicted(files: seq<File>, activeSize: nat, cap: nat): (k: nat)
    ensures k <= |files|
  {
    if files == [] || TotalSize(files) + activeSize <= cap then 0 else 1 + CapEvicted(files[1..], activeSize, cap)
  }

  lemma {:induction false} CapOnly(files: seq<File>, activeSize: nat, cutoff: int, cap: nat)
    requires forall i :: 0 <= i < |files| ==> files[i].mtime >= cutoff
    ensures Evicted(files, activeSize, cutoff, cap) == CapEvicted(files, activeSize, cap)
  {
    if files != [] {
      var rest := files[1..];
      assert forall i :: 0 <= i < |rest| ==> rest[i] == files[i + 1];
      CapOnly(rest, activeSize, cutoff, cap);
    }
  }

  function AgedCount(files: seq<File>, cutoff: int): (a: nat)
    ensures a <= |files|
  {
    if files == [] || files[0].mtime >= cutoff then 0 else 1 + AgedCount(files[1..], cutoff)
  }

  /** The age sweep takes a first stretch of the files by time; the cap takes the next. */
  lemma {:induction false} AgedFirst(files: seq<File>, activeSize: nat, cutoff: int, cap: nat)
    requires Increasing(files)
    ensures var a := AgedCount(files, cutoff);
            && (forall i :: 0 <= i < |files| ==> (files[i].mtime < cutoff <==> i < a))
            && Evicted(files, activeSize, cutoff, cap) == a + CapEvicted(files[a..], activeSize, cap)
  {
    if files != [] {
      var rest := files[1..];
      AgedFirst(rest, activeSize, cutoff, cap);
      var a := AgedCount(files, cutoff);
      if a == 0 {
        assert files[0..] == files;
        assert forall i :: 0 < i < |files| ==> files[0].mtime < files[i].mtime;
        CapOnly(files, activeSize, cutoff, cap);
      } else {
        assert rest[a - 1..] == files[a..];
        assert forall i :: 0 < i < |files| ==> files[i] == rest[i - 1];
      }
    }
  }

  lemma AgedAreFirst(d: Directory, order: seq<string>, prefix: string, written: seq<Line>, cutoff: int)
    requires Spool(d, order, prefix, written)
    requires var files := FilesOf(d, order);
             forall i :: 0 <= i < |files| ==> (files[i].mtime < cutoff <==> i < AgedCount(files, cutoff))
    ensures Aged(d, prefix, cutoff) == Names(order[..AgedCount(FilesOf(d, order), cutoff)])
  {
    var files := FilesOf(d, order);
    var first := order[..AgedCount(files, cutoff)];
    forall n | n in Aged(d, prefix, cutoff) ensures n in first {
      var i :| 0 <= i < |order| && order[i] == n;
      assert files[i] == d[n];
      assert first[i] == n;
    }
    forall n | n in first ensures n in Aged(d, prefix, cutoff) {
      var i :| 0 <= i < |first| && first[i] == n;
      assert files[i] == d[order[i]];
    }
  }

  /** The family by file time is the rotation order and then the active file. */
  lemma FamilyByTime(d: Directory, order: seq<string>, prefix: string, written: seq<Line>, sorted: seq<string>)
    requires Spool(d, order, prefix, written) && ActiveName(prefix) in d
    requires ByTime(d, sorted) && Names(sorted) == Family(d, prefix)
    ensures sorted == order + [ActiveName(prefix)]
  {
    var all := order + [ActiveName(prefix)];
    NamesAreInFamily(prefix, 0, 0);
    assert FilesOf(d, all) == Log(d, order, prefix);
    assert all[|order|] == ActiveName(prefix) && forall i :: 0 <= i < |order| ==> all[i] == order[i];
    forall n | n in Family(d, prefix) ensures n in all {
      assert n == all[|order|] || n in order;
    }
    OneOrder(d, sorted, all);
  }

  lemma DistinctTimes(d: Directory, order: seq<string>, prefix: string, written: seq<Line>, m: string, n: string)
    requires Spool(d, order, prefix, written) && m != n
    requires m in Family(d, prefix) && n in Family(d, prefix)
    ensures d[m].mtime != d[n].mtime
  {
    var log, all := Log(d, order, prefix), order + [ActiveName(prefix)];
    assert all[|order|] == ActiveName(prefix) && forall i :: 0 <= i < |order| ==> all[i] == order[i];
    assert m in all && n in all;
    var i :| 0 <= i < |all| && all[i] == m;
    var j :| 0 <= j < |all| && all[j] == n;
    assert log[i] == d[m] && log[j] == d[n];
    assert i < j || j < i;
  }

  lemma CapStep(files: seq<File>, i: nat, activeSize: nat, cap: nat)
    requires i < |files|
    ensures TotalSize(files[i..]) == Size(files[i]) + TotalSize(files[i + 1..])
    ensures TotalSize(files[i..]) + activeSize > cap ==>
              CapEvicted(files[i..], activeSize, cap) == 1 + CapEvicted(files[i + 1..], activeSize, cap)
  {
    assert files[i..][1..] == files[i + 1..];
  }

  lemma NamesStep(names: seq<string>, i: nat)
    requires i < |names| && Distinct(names)
    ensures Names(names[..i + 1]) == Names(names[..i]) + {names[i]} && names[i] !in Names(names[..i])
  {
    assert names[..i + 1] == names[..i] + [names[i]];
  }

  /** How many rotated files the age sweep removes; they are the oldest. */
  ghost function AgedOf(d: Directory, order: seq<string>, cutoff: int): (a: nat)
    requires Present(d, order)
    ensures a <= |order|
  {
    AgedCount(FilesOf(d, order), cutoff)
  }

  lemma AgeSweepIsPrefix(d: Directory, order: seq<string>, prefix: string, written: seq<Line>, cutoff: int)
    requires Spool(d, order, prefix, written)
    ensures d - Aged(d, prefix, cutoff) == Without(d, order, AgedOf(d, order, cutoff))
  {
    IncreasingFiles(d, order, prefix, written);
    AgedFirst(FilesOf(d, order), 0, cutoff, 0);
    AgedAreFirst(d, order, prefix, written, cutoff);
  }

  lemma WithoutMore(d: Directory, order: seq<string>, a: nat, b: nat)
    requires a + b <= |order|
    ensures Without(Without(d, order, a), order[a..], b) == Without(d, order, a + b)
  {
    assert order[..a + b] == order[..a] + order[a..][..b];
  }

  lemma TimesDifferAfterAgeSweep(d: Directory, order: seq<string>, prefix: string, written: seq<Line>, cutoff: int,
      d': Directory)
    requires Spool(d, order, prefix, written) && d' == d - Aged(d, prefix, cutoff)
    ensures forall n :: n in Family(d', prefix) ==> n in d'
    ensures forall m, n :: m in Family(d', prefix) && n in Family(d', prefix) && m != n ==> d'[m].mtime != d'[n].mtime
  {
    forall m, n | m in Family(d', prefix) && n in Family(d', prefix) && m != n ensures d'[m].mtime != d'[n].mtime {
      DistinctTimes(d, order, prefix, written, m, n);
    }
  }

  /** What the cap sweep walks: the files the age sweep left, oldest first, and the active one last. */
  lemma SweepOrder(d: Directory, order: seq<string>, prefix: string, written: seq<Line>, cutoff: int,
      sorted: seq<string>)
    requires Spool(d, order, prefix, written) && ActiveName(prefix) in d
    requires var d' := d - Aged(d, prefix, cutoff); ByTime(d', sorted) && Names(sorted) == Family(d', prefix)
    ensures sorted == order[AgedOf(d, order, cutoff)..] + [ActiveName(prefix)]
  {
    var a := AgedOf(d, order, cutoff);
    AgeSweepIsPrefix(d, order, prefix, written, cutoff);
    RemoveOldestKeepsSpool(d, order, prefix, written, a);
    RemoveOldestFiles(d, order, prefix, a);
    FamilyByTime(Without(d, order, a), order[a..], prefix, written, sorted);
  }

  /** Both sweeps together remove as many of the oldest files as `Evicted` says. */
  lemma SweptCount(d: Directory, order: seq<string>, prefix: string, written: seq<Line>, cutoff: int,
      activeSize: nat, cap: nat)
    requires Spool(d, order, prefix, written)
    ensures var a := AgedOf(d, order, cutoff);
            && Present(Without(d, order, a), order[a..])
            && Evicted(FilesOf(d, order), activeSize, cutoff, cap)
               == a + CapEvicted(FilesOf(Without(d, order, a), order[a..]), activeSize, cap)
  {
    IncreasingFiles(d, order, prefix, written);
    AgedFirst(FilesOf(d, order), activeSize, cutoff, cap);
    RemoveOldestFiles(d, order, prefix, AgedOf(d, order, cutoff));
  }

  lemma RotatedFiles(d: Directory, order: seq<string>, prefix: string, written: seq<Line>, target: string, stamp: int)
    requires Spool(d, order, prefix, written) && ActiveName(prefix) in d && target !in d && InFamily(prefix, target)
    requires NewerThanAll(d, prefix, stamp)
    ensures var d' := (d - {ActiveName(prefix)})[target := d[ActiveName(prefix)]];
            && Present(d', order + [target])
            && FilesOf(d', order + [target]) == FilesOf(d, order) + [Active(d, prefix)]
            && NewerThanAll(d', prefix, stamp) && Outside(d', prefix) == Outside(d, prefix)
            && Active(d', prefix).lines == []
  {
    NamesAreInFamily(prefix, 0, 0);
  }

  lemma AppendedFiles(d: Directory, order: seq<string>, prefix: string, written: seq<Line>, line: Line, stamp: int)
    requires Spool(d, order, prefix, written)
    ensures var d' := Appended(d, prefix, line, stamp);
            && Present(d', order) && FilesOf(d', order) == FilesOf(d, order)
            && Outside(d', prefix) == Outside(d, prefix)
            && Size(Active(d', prefix)) == Size(Active(d, prefix)) + |line| + 1
  {
    NamesAreInFamily(prefix, 0, 0);
    SizeAppend(Active(d, prefix).lines, line);
  }

  predicate AllYoung(d: Directory, names: seq<string>, cutoff: int) {
    forall n :: n in names ==> n in d && d[n].mtime >= cutoff
  }

  /** The files a budget pass keeps meet both bounds. */
  lemma BudgetIsMet(d: Directory, order: seq<string>, before: seq<File>, activeSize: nat, cutoff: int, cap: nat)
    requires Present(d, order) && Increasing(before)
    requires FilesOf(d, order) == before[Evicted(before, activeSize, cutoff, cap)..]
    ensures AllYoung(d, order, cutoff)
    ensures order == [] || TotalSize(FilesOf(d, order)) + activeSize <= cap
  {
    var gone := Evicted(before, activeSize, cutoff, cap);
    EvictedIsLeast(before, activeSize, cutoff, cap);
    EvictedLeavesYoung(before, activeSize, cutoff, cap);
    hide Increasing, Evicted, TotalSize;
    forall n | n in order ensures n in d && d[n].mtime >= cutoff {
      var i :| 0 <= i < |order| && order[i] == n;
      assert FilesOf(d, order)[i] == before[gone + i];
    }
  }

  class SpooledRotatingWriter {
    const prefix: string
    const maxFileBytes: nat
    const maxSpoolBytes: nat
    const retention: int
    var dir: Directory
    /** The rotated files by age, and every line the family was ever given. */
    ghost var order: seq<string>
    ghost var written: seq<Line>

    /** Nothing is remembered but the files themselves, so any spool can be taken up again. */
    constructor (prefix: string, maxFileBytes: nat, maxSpoolBytes: nat, retention: int,
                 dir: Directory, ghost order: seq<string>, ghost written: seq<Line>)
      requires Spool(dir, order, prefix, written)
      ensures Spool(dir, order, prefix, written) && this.dir == dir && this.order == order && this.written == written
      ensures this.prefix == prefix && this.maxFileBytes == maxFileBytes
      ensures this.maxSpoolBytes == maxSpoolBytes && this.retention == retention
    {
      this.prefix, this.maxFileBytes, this.maxSpoolBytes, this.retention := prefix, maxFileBytes, maxSpoolBytes,
          retention;
      this.dir, this.order, this.written := dir, order, written;
    }

    /**
     * `readings(k)` is the clock at the `k`-th try for a name, `now` the clock of the
     * sweep, and `stamp` the file system's own time of the append.
     */
    method WriteLine(line: Line, readings: nat -> nat, now: int, stamp: int)
      returns (ghost renamed: seq<string>, ghost gone: nat)
      requires Spool(dir, order, prefix, written) && NewerThanAll(dir, prefix, stamp)
      modifies this
      ensures Spool(dir, order, prefix, written) && written == old(written) + [line]
      ensures renamed != [] <==> ActiveName(prefix) in old(dir) && Size(old(dir)[ActiveName(prefix)]) >= maxFileBytes
      ensures |renamed| <= 1 && forall n :: n in renamed ==> n !in old(dir)
      ensures var before := old(FilesOf(dir, order)) + if renamed == [] then [] else [Active(old(dir), prefix)];
              && gone == Evicted(before, Size(Active(dir, prefix)), now - retention, maxSpoolBytes)
              && order == (old(order) + renamed)[gone..]
              && FilesOf(dir, order) == before[gone..]
      ensures ActiveName(prefix) in dir
      ensures dir[ActiveName(prefix)] == File(stamp, (if renamed == [] then Active(old(dir), prefix).lines
          else []) + [line])
      ensures AllYoung(dir, order, now - retention)
      ensures order == [] || TotalSize(FilesOf(dir, order)) + Size(Active(dir, prefix)) <= maxSpoolBytes
      ensures maxFileBytes > 0 ==> Size(Active(dir, prefix)) < maxFileBytes + |line| + 1
      ensures Outside(dir, prefix) == Outside(old(dir), prefix)
      ensures forall n :: !InFamily(prefix, n) ==> Get(dir, n) == Get(old(dir), n)
    {
      hide Present, Distinct, Covers, Increasing, NewerThanAll, InFamily, IsSuffix, Log, Flatten, Outside, Evicted,
          Names, AllYoung;
      renamed := RotateWhenFull(readings, stamp);
      ghost var before := FilesOf(dir, order);
      Append(line, stamp);
      IncreasingFiles(dir, order, prefix, written);
      ghost var full, names := dir, order;
      gone := EnforceBudget(now);
      RemoveOldestFiles(full, names, prefix, gone);
      RemoveOldestOutside(full, names, prefix, gone);
      OutsideIsTheRest(old(dir), dir, prefix);
      BudgetIsMet(dir, order, before, Size(Active(dir, prefix)), now - retention, maxSpoolBytes);
    }

    method RotateWhenFull(readings: nat -> nat, ghost stamp: int) returns (ghost renamed: seq<string>)
      requires Spool(dir, order, prefix, written) && NewerThanAll(dir, prefix, stamp)
      modifies this`dir, this`order
      ensures Spool(dir, order, prefix, written) && NewerThanAll(dir, prefix, stamp)
      ensures renamed != [] <==> ActiveName(prefix) in old(dir) && Size(old(dir)[ActiveName(prefix)]) >= maxFileBytes
      ensures |renamed| <= 1 && order == old(order) + renamed && forall n :: n in renamed ==> n !in old(dir)
      ensures FilesOf(dir, order) == old(FilesOf(dir, order)) + if renamed == [] then [] else [Active(old(dir), prefix)]
      ensures Active(dir, prefix).lines == if renamed == [] then Active(old(dir), prefix).lines else []
      ensures Outside(dir, prefix) == Outside(old(dir), prefix)
    {
      hide Present, Distinct, Covers, Increasing, NewerThanAll, InFamily, IsSuffix, Log, Flatten, Outside;
      renamed := [];
      if ActiveName(prefix) in dir && Size(dir[ActiveName(prefix)]) >= maxFileBytes {
        ghost var target := Rotate(readings);
        RotatedFiles(old(dir), old(order), prefix, written, target, stamp);
        renamed := [target];
      }
    }

    method Append(line: Line, stamp: int)
      requires Spool(dir, order, prefix, written) && NewerThanAll(dir, prefix, stamp)
      modifies this`dir, this`written
      ensures Spool(dir, order, prefix, written) && written == old(written) + [line]
      ensures ActiveName(prefix) in dir
          && dir[ActiveName(prefix)] == File(stamp, Active(old(dir), prefix).lines + [line])
      ensures FilesOf(dir, order) == old(FilesOf(dir, order))
      ensures Outside(dir, prefix) == Outside(old(dir), prefix)
      ensures Size(Active(dir, prefix)) == Size(Active(old(dir), prefix)) + |line| + 1
    {
      hide Spool, NewerThanAll, InFamily, IsSuffix, Log, Flatten, Outside;
      AppendedFiles(dir, order, prefix, written, line, stamp);
      AppendKeepsSpool(dir, order, prefix, written, line, stamp);
      dir := Appended(dir, prefix, line, stamp);
      written := written + [line];
    }

    method Rotate(readings: nat -> nat) returns (ghost target: string)
      requires Spool(dir, order, prefix, written) && ActiveName(prefix) in dir
      modifies this`dir, this`order
      ensures Spool(dir, order, prefix, written)
      ensures target !in old(dir) && InFamily(prefix, target)
      ensures dir == (old(dir) - {ActiveName(prefix)})[target := old(dir)[ActiveName(prefix)]]
      ensures order == old(order) + [target]
    {
      var counter := 0;
      var name := RotatedName(prefix, readings(0), 0);
      ghost var tried: set<string> := {};
      while name in dir
        invariant name == RotatedName(prefix, readings(counter), counter)
        invariant tried <= dir.Keys
        invariant forall n :: n in tried ==> exists k: nat :: k < counter && n == RotatedName(prefix, readings(k), k)
        decreases dir.Keys - tried
      {
        forall k: nat | k < counter ensures name != RotatedName(prefix, readings(k), k) {
          if name == RotatedName(prefix, readings(k), k) {
            TriesDiffer(prefix, readings(counter), counter, readings(k), k);
          }
        }
        tried := tried + {name};
        counter := counter + 1;
        name := RotatedName(prefix, readings(counter), counter);
      }
      NamesAreInFamily(prefix, readings(counter), counter);
      RenameKeepsSpool(dir, order, prefix, written, name);
      target := name;
      dir := (dir - {ActiveName(prefix)})[name := dir[ActiveName(prefix)]];
      order := order + [name];
    }

    method AgeSweep(cutoff: int) returns (survivors: set<string>)
      modifies this`dir
      ensures dir == old(dir) - Aged(old(dir), prefix, cutoff)
      ensures survivors == Family(dir, prefix)
    {
      survivors := {};
      var rest := Family(dir, prefix);
      while rest != {}
        invariant rest <= Family(old(dir), prefix)
        invariant dir == old(dir) - (Aged(old(dir), prefix, cutoff) - rest)
        invariant survivors == Family(old(dir), prefix) - Aged(old(dir), prefix, cutoff) - rest
      {
        var path :| path in rest;
        if path == ActiveName(prefix) {
          survivors := survivors + {path};
        } else if dir[path].mtime < cutoff {
          dir := dir - {path};
        } else {
          survivors := survivors + {path};
        }
        rest := rest - {path};
      }
    }

    method CapSweep(survivors: seq<string>, ghost rotated: seq<string>) returns (ghost gone: nat)
      requires survivors == rotated + [ActiveName(prefix)]
      requires Present(dir, rotated) && Distinct(rotated) && ActiveName(prefix) !in rotated && ActiveName(prefix) in dir
      modifies this`dir
      ensures gone == CapEvicted(old(FilesOf(dir, rotated)), Size(old(dir)[ActiveName(prefix)]), maxSpoolBytes)
      ensures gone <= |rotated| && dir == Without(old(dir), rotated, gone)
    {
      ghost var files, active := FilesOf(dir, rotated), dir[ActiveName(prefix)];
      assert FilesOf(dir, survivors) == files + [active];
      var total := TotalSize(FilesOf(dir, survivors));
      TotalSplit(files, [active]);
      TotalOne(active);
      gone := 0;
      assert files[0..] == files;
      var i := 0;
      while i < |survivors|
        invariant i <= |survivors| && gone == if i < |survivors| then i else |rotated|
        invariant dir == Without(old(dir), rotated, gone)
        invariant total == TotalSize(files[gone..]) + Size(active)
        invariant CapEvicted(files, Size(active), maxSpoolBytes) == gone + CapEvicted(files[gone..], Size(active),
            maxSpoolBytes)
      {
        if total <= maxSpoolBytes {
          return;
        }
        var path := survivors[i];
        if path != ActiveName(prefix) {
          CapStep(files, i, Size(active), maxSpoolBytes);
          NamesStep(rotated, i);
          assert dir[path] == files[i];
          total := total - Size(dir[path]);
          dir := dir - {path};
          gone := gone + 1;
        } else {
          assert i == |rotated|;
        }
        i := i + 1;
      }
    }

    method EnforceBudget(now: int) returns (ghost gone: nat)
      requires Spool(dir, order, prefix, written) && ActiveName(prefix) in dir
      modifies this`dir, this`order
      ensures Spool(dir, order, prefix, written)
      ensures gone == Evicted(old(FilesOf(dir, order)), Size(old(dir[ActiveName(prefix)])), now - retention,
          maxSpoolBytes)
      ensures gone <= old(|order|) && order == old(order)[gone..] && dir == Without(old(dir), old(order), gone)
    {
      hide Present, Distinct, Covers, Increasing, ByTime, Aged, Family, InFamily, IsSuffix, Log;
      ghost var cutoff := now - retention;
      ghost var aged := AgedOf(dir, order, cutoff);
      TimesDifferAfterAgeSweep(dir, order, prefix, written, cutoff, dir - Aged(dir, prefix, cutoff));
      AgeSweepIsPrefix(dir, order, prefix, written, cutoff);
      RemoveOldestFiles(dir, order, prefix, aged);
      SweptCount(dir, order, prefix, written, cutoff, Size(dir[ActiveName(prefix)]), maxSpoolBytes);
      var survivors := AgeSweep(now - retention);
      var sorted := SortByTime(dir, survivors);
      SweepOrder(old(dir), order, prefix, written, cutoff, sorted);
      ghost var capped := CapSweep(sorted, order[aged..]);
      gone := aged + capped;
      WithoutMore(old(dir), order, aged, capped);
      RemoveOldestKeepsSpool(old(dir), order, prefix, written, gone);
      order := order[gone..];
    }
  }

  /** The bytes on disk: every line with its newline. */
  function Bytes(lines: seq<Line>): seq<bv8> {
    if lines == [] then [] else lines[0] + [0x0A] + Bytes(lines[1..])
  }

  lemma {:induction false} SizeIsBytes(f: File)
    ensures Size(f) == |Bytes(f.lines)|
    decreases |f.lines|
  {
    if f.lines != [] {
      SizeIsBytes(File(f.mtime, f.lines[1..]));
    }
  }

  lemma {:induction false} BytesSplit(a: seq<Line>, b: seq<Line>)
    ensures Bytes(a + b) == Bytes(a) + Bytes(b)
  {
    hide *;
    if a == [] {
      NoBytes();
      Chain([], [], b);
      Joined([], [], Bytes(b));
    } else {
      BytesSplit(a[1..], b);
      FirstBytes(a[0], a[1..]);
      FirstBytes(a[0], a[1..] + b);
      Chain([a[0]], a[1..], b);
      Chain([], a, b);
      Joined(a[0] + [0x0A], Bytes(a[1..]), Bytes(b));
    }
  }

  lemma NoBytes()
    ensures Bytes([]) == []
  {
  }

  lemma Chain(a: seq<Line>, b: seq<Line>, c: seq<Line>)
    ensures a + b + c == a + (b + c) && [] + c == c
    ensures b != [] ==> [b[0]] + b[1..] == b
  {
  }

  lemma Joined(x: seq<bv8>, y: seq<bv8>, z: seq<bv8>)
    ensures x + y + z == x + (y + z) && [] + z == z
  {
  }

  lemma FirstBytes(line: Line, lines: seq<Line>)
    ensures Bytes([line] + lines) == line + [0x0A] + Bytes(lines)
  {
    assert ([line] + lines)[1..] == lines;
  }

  /** The budget counts what the files hold: one byte for each byte and newline of all their lines. */
  lemma {:induction false} BudgetIsBytes(files: seq<File>)
    ensures TotalSize(files) == |Bytes(Flatten(files))|
  {
    if files != [] {
      BudgetIsBytes(files[1..]);
      SizeIsBytes(files[0]);
      BytesSplit(files[0].lines, Flatten(files[1..]));
    }
  }
}
