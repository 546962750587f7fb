/** `ansina_tui.config`: printing the hosts file, and reading it back. */
module HostsToml {
  import opened Wrappers
  import opened Toml

  datatype HostEntry = HostEntry(
    token: Option<string>,
    tokenId: Option<string>,
    username: Option<string>,
    roles: seq<string>,
    sudoToken: Option<string>,
    sudoExpiresAt: Option<string>)

  datatype Host = Host(name: string, entry: HostEntry)

  /** `value.replace(c, by)`. */
  function ReplaceChar(value: string, c: char, with: string): string {
    if value == "" then "" else (if value[0] == c then with else [value[0]]) + ReplaceChar(value[1..], c, with)
  }

  function TomlString(value: string): string {
    "\"" + ReplaceChar(ReplaceChar(value, '\\', "\\\\"), '"', "\\\"") + "\""
  }

  function Escaped(value: string): string {
    if value == "" then "" else EscapedChar(value[0]) + Escaped(value[1..])
  }

  lemma ReplaceFirst(x: char, rest: string, c: char, with: string)
    ensures ReplaceChar([x] + rest, c, with) == (if x == c then with else [x]) + ReplaceChar(rest, c, with)
  {
    assert ([x] + rest)[1..] == rest;
  }

  lemma Associative(a: string, b: string, c: string)
    ensures (a + b) + c == a + (b + c)
  {
  }

  lemma {:induction false} ReplaceInParts(a: string, b: string, c: char, with: string)
    ensures ReplaceChar(a + b, c, with) == ReplaceChar(a, c, with) + ReplaceChar(b, c, with)
  {
    if a == "" {
      assert a + b == b;
    } else {
      hide ReplaceChar;
      var x, rest := [a[0]], a[1..];
      assert a == x + rest;
      Associative(x, rest, b);
      ReplaceInParts(rest, b, c, with);
      ReplaceFirst(a[0], rest, c, with);
      ReplaceFirst(a[0], rest + b, c, with);
      Associative(if a[0] == c then with else x, ReplaceChar(rest, c, with), ReplaceChar(b, c, with));
    }
  }

  /** The second replacement never touches what the first one wrote. */
  lemma {:induction false} TwoPassesAreOne(value: string)
    ensures ReplaceChar(ReplaceChar(value, '\\', "\\\\"), '"', "\\\"") == Escaped(value)
  {
    if value != "" {
      var c, rest := value[0], value[1..];
      var head := if c == '\\' then "\\\\" else [c];
      TwoPassesAreOne(rest);
      assert value == [c] + rest;
      assert Escaped(value) == EscapedChar(c) + Escaped(rest);
      hide ReplaceChar, Escaped, EscapedChar;
      ReplaceFirst(c, rest, '\\', "\\\\");
      ReplaceInParts(head, ReplaceChar(rest, '\\', "\\\\"), '"', "\\\"");
      SecondPassOnChar(c, head);
    }
  }

  lemma SecondPassOnChar(c: char, head: string)
    requires head == if c == '\\' then "\\\\" else [c]
    ensures ReplaceChar(head, '"', "\\\"") == EscapedChar(c)
  {
    if c == '\\' {
      assert head[1..] == "\\" && "\\"[1..] == "";
      assert ReplaceChar("\\", '"', "\\\"") == "\\" + ReplaceChar("", '"', "\\\"");
    } else {
      assert head[1..] == "";
    }
  }

  predicate Plain(value: string) {
    forall i :: 0 <= i < |value| ==> !Forbidden(value[i])
  }

  function EscapedChar(c: char): string {
    if c == '\\' then "\\\\" else if c == '"' then "\\\"" else [c]
  }

  lemma ReadFirst(c: char, tail: string)
    ensures Chars(EscapedChar(c) + tail) == if Forbidden(c) then Fail else Prepend([c], Chars(tail))
  {
    var text := EscapedChar(c) + tail;
    if c == '\\' || c == '"' {
      assert text[2..] == tail && Unescape(c) == [c];
    } else {
      assert text[1..] == tail;
    }
  }

  lemma PlainFirst(value: string)
    requires value != ""
    ensures Plain(value) <==> !Forbidden(value[0]) && Plain(value[1..])
  {
    assert forall i :: 0 < i < |value| ==> value[i] == value[1..][i - 1];
  }

  lemma {:induction false} ReadEscaped(value: string, rest: string)
    ensures Chars(Escaped(value) + ("\"" + rest)) == if Plain(value) then Got(value, rest) else Fail
  {
    var close := "\"" + rest;
    if value == "" {
      assert Escaped(value) + close == close && close[1..] == rest;
    } else {
      var tail := Escaped(value[1..]);
      ReadEscaped(value[1..], rest);
      PlainFirst(value);
      ReadFirst(value[0], tail + close);
      assert Escaped(value) == EscapedChar(value[0]) + tail;
      hide Chars, Escaped, EscapedChar, Plain, Forbidden;
      Associative(EscapedChar(value[0]), tail, close);
      assert value == [value[0]] + value[1..];
    }
  }

  /** A printed string reads back as itself exactly when it holds no forbidden control character. */
  lemma ReadPrinted(value: string, rest: string)
    ensures BasicString(TomlString(value) + rest) == if Plain(value) then Got(value, rest) else Fail
  {
    TwoPassesAreOne(value);
    ReadEscaped(value, rest);
    var text := TomlString(value) + rest;
    assert text == "\"" + (Escaped(value) + ("\"" + rest));
    assert text[1..] == Escaped(value) + ("\"" + rest);
  }

  function Commas(items: seq<string>): string {
    if items == [] then "" else if |items| == 1 then TomlString(items[0])
        else TomlString(items[0]) + ", " + Commas(items[1..])
  }

  predicate AllPlain(items: seq<string>) {
    forall i :: 0 <= i < |items| ==> Plain(items[i])
  }

  lemma SkipOne(text: string)
    requires text != "" && text[0] != ' ' && text[0] != '\t'
    ensures SkipBlanks(" " + text) == text && SkipBlanks(text) == text
  {
    assert (" " + text)[1..] == text;
  }

  lemma BlankBefore(text: string)
    requires text != "" && text[0] != ' ' && text[0] != '\t'
    ensures Elements(" " + text) == Elements(text)
  {
    SkipOne(text);
  }

  /** One printed element, with a comma or the closing bracket after it. */
  lemma {:induction false} ReadElement(item: string, after: string)
    requires after != "" && (after[0] == ',' || after[0] == ']')
    ensures Elements(TomlString(item) + after) ==
              if !Plain(item) then Fail
              else if after[0] == ']' then Got([item], after[1..])
              else Prepend([item], Elements(after[1..]))
  {
    ReadPrinted(item, after);
    SkipOne(TomlString(item) + after);
    SkipOne(after);
  }

  lemma PlainParts(items: seq<string>)
    requires items != []
    ensures AllPlain(items) <==> Plain(items[0]) && AllPlain(items[1..])
  {
    assert forall i :: 0 < i < |items| ==> items[i] == items[1..][i - 1];
  }

  lemma MoreCommas(items: seq<string>, after: string)
    requires |items| > 1
    ensures Commas(items) + after == TomlString(items[0]) + (", " + (Commas(items[1..]) + after))
  {
    var first, rest := TomlString(items[0]), Commas(items[1..]);
    assert Commas(items) == first + ", " + rest;
    hide Commas, TomlString;
    Associative(first, ", ", rest + after);
    Associative(first + ", ", rest, after);
  }

  lemma StartsQuoted(items: seq<string>, after: string)
    requires items != []
    ensures Commas(items) != "" && (Commas(items) + after)[0] == '"'
  {
    assert TomlString(items[0])[0] == '"';
    hide TomlString;
  }

  lemma {:induction false} ReadCommas(items: seq<string>, rest: string)
    requires items != []
    ensures Elements(Commas(items) + ("]" + rest)) == if AllPlain(items) then Got(items, rest) else Fail
  {
    var more, close := items[1..], "]" + rest;
    PlainParts(items);
    if more == [] {
      ReadElement(items[0], close);
      assert items == [items[0]] && close[1..] == rest;
    } else {
      ReadCommas(more, rest);
      MoreCommas(items, close);
      var tail := Commas(more) + close;
      StartsQuoted(more, close);
      BlankBefore(tail);
      hide Commas, AllPlain, Elements, TomlString;
      ReadElement(items[0], ", " + tail);
      assert (", " + tail)[1..] == " " + tail;
      assert items == [items[0]] + more;
    }
  }

  /** One line of the printed file. */
  datatype Line = HeaderLine(host: string) | FieldLine(name: string,
      text: string) | RolesLine(roles: seq<string>) | Blank

  function Show(line: Line): string {
    match line
    case HeaderLine(host) => "[hosts." + TomlString(host) + "]"
    case FieldLine(name, text) => name + " = " + TomlString(text)
    case RolesLine(roles) => "roles = [" + Commas(roles) + "]"
    case Blank => ""
  }

  predicate PlainLine(line: Line) {
    match line
    case HeaderLine(host) => Plain(host)
    case FieldLine(_, text) => Plain(text)
    case RolesLine(roles) => AllPlain(roles)
    case Blank => true
  }

  /** What a well-formed line does to the sections read so far. */
  function Effect(line: Line, sections: seq<Section>): Document {
    match line
    case HeaderLine(host) => if Has(sections, host) then Malformed else Read(sections + [Section(host, map[])])
    case FieldLine(name, text) => Set(sections, name, Str(text))
    case RolesLine(roles) => Set(sections, "roles", Arr(roles))
    case Blank => Read(sections)
  }

  function Interpret(lines: seq<Line>, sections: seq<Section>): Document
    decreases |lines|
  {
    if lines == [] then Read(sections)
    else if !PlainLine(lines[0]) || Effect(lines[0], sections).Malformed? then Malformed
    else Interpret(lines[1..], Effect(lines[0], sections).sections)
  }

  predicate IsKey(name: string) {
    name != "" && forall i :: 0 <= i < |name| ==> KeyChar(name[i])
  }

  predicate Printable(line: Line) {
    (line.FieldLine? ==> IsKey(line.name)) && (line.RolesLine? ==> line.roles != [])
  }

  lemma {:induction false} ReadKey(name: string, after: string)
    requires forall i :: 0 <= i < |name| ==> KeyChar(name[i])
    requires after != "" && !KeyChar(after[0])
    ensures BareKey(name + after) == Got(name, after)
  {
    if name == "" {
      assert name + after == after;
    } else {
      ReadKey(name[1..], after);
      assert (name + after)[1..] == name[1..] + after;
      assert name == [name[0]] + name[1..];
    }
  }

  lemma EndLine<T>(value: T, more: string)
    ensures LineEnd(value, "\n" + more) == Got(value, more)
  {
    assert ("\n" + more)[1..] == more;
  }

  lemma CloseHeader(quoted: string, host: Parsed<string>, more: string)
    requires BasicString(quoted + ("]" + ("\n" + more))) == host && (host.Got? ==> host.rest == "]" + ("\n" + more))
    ensures Header("[hosts." + quoted + "]" + ("\n" + more)) == if host.Got? then Got(host.value, more) else Fail
  {
    hide BasicString, LineEnd;
    var tail := quoted + ("]" + ("\n" + more));
    assert "[hosts." + quoted + "]" + ("\n" + more) == "[hosts." + tail;
    assert ("[hosts." + tail)[7..] == tail;
    if host.Got? {
      assert host.rest[1..] == "\n" + more;
      EndLine(host.value, more);
    }
  }

  lemma ReadHeader(host: string, more: string)
    ensures Header(Show(HeaderLine(host)) + ("\n" + more)) == if Plain(host) then Got(host, more) else Fail
  {
    ReadPrinted(host, "]" + ("\n" + more));
    CloseHeader(TomlString(host), if Plain(host) then Got(host, "]" + ("\n" + more)) else Fail, more);
  }

  lemma ReadPair(name: string, value: string, read: Parsed<Value>, more: string)
    requires IsKey(name) && value != "" && value[0] != ' ' && value[0] != '\t'
    requires ReadValue(value + ("\n" + more)) == read && (read.Got? ==> read.rest == "\n" + more)
    ensures Pair(name + " = " + value + ("\n" + more)) == if read.Got? then Got((name, read.value), more) else Fail
  {
    hide BareKey, ReadValue, LineEnd, SkipBlanks;
    var after := "= " + (value + ("\n" + more));
    assert name + " = " + value + ("\n" + more) == name + (" " + after);
    ReadKey(name, " " + after);
    SkipOne(after);
    assert after[1..] == " " + (value + ("\n" + more));
    SkipOne(value + ("\n" + more));
    if read.Got? {
      EndLine((name, read.value), more);
    }
  }

  lemma ReadField(name: string, text: string, more: string)
    requires IsKey(name)
    ensures Pair(Show(FieldLine(name, text)) + ("\n" + more)) == if Plain(text)
        then Got((name, Str(text)), more) else Fail
  {
    ReadPrinted(text, "\n" + more);
    ReadPair(name, TomlString(text), if Plain(text) then Got(Str(text), "\n" + more) else Fail, more);
  }

  lemma ReadRoles(roles: seq<string>, more: string)
    requires roles != []
    ensures Pair(Show(RolesLine(roles)) + ("\n" + more)) == if AllPlain(roles)
        then Got(("roles", Arr(roles)), more) else Fail
  {
    hide Commas, Elements, AllPlain, Pair;
    ReadCommas(roles, "\n" + more);
    var value, items := "[" + Commas(roles) + "]", Commas(roles) + ("]" + ("\n" + more));
    assert value + ("\n" + more) == "[" + items;
    assert ("[" + items)[1..] == items;
    assert Show(RolesLine(roles)) == "roles" + " = " + value;
    ReadPair("roles", value, if AllPlain(roles) then Got(Arr(roles), "\n" + more) else Fail, more);
  }

  /** Reading one printed line, whatever follows it. */
  lemma ReadLine(line: Line, more: string, sections: seq<Section>)
    requires Printable(line)
    ensures Rest(Show(line) + ("\n" + more), sections) ==
              if !PlainLine(line) || Effect(line, sections).Malformed? then Malformed
              else Rest(more, Effect(line, sections).sections)
  {
    var text := Show(line) + ("\n" + more);
    match line
    case HeaderLine(host) => ReadHeader(host, more);
    case FieldLine(name, value) =>
      ReadField(name, value, more);
      assert text[0] == name[0] && KeyChar(name[0]);
    case RolesLine(roles) =>
      ReadRoles(roles, more);
      assert text[0] == 'r';
    case Blank => assert text[1..] == more;
  }

  function Lined(lines: seq<Line>): string {
    if lines == [] then "" else Show(lines[0]) + ("\n" + Lined(lines[1..]))
  }

  lemma {:induction false} ReadLines(lines: seq<Line>, sections: seq<Section>)
    requires forall i :: 0 <= i < |lines| ==> Printable(lines[i])
    ensures Rest(Lined(lines), sections) == Interpret(lines, sections)
    decreases |lines|
  {
    if lines != [] {
      ReadLine(lines[0], Lined(lines[1..]), sections);
      if PlainLine(lines[0]) && Effect(lines[0], sections).Read? {
        ReadLines(lines[1..], Effect(lines[0], sections).sections);
      }
    }
  }

  type Field = (string, Option<string>)

  function Fields(e: HostEntry): seq<Field> {
    [("token", e.token), ("token_id", e.tokenId), ("username", e.username),
     ("sudo_token", e.sudoToken), ("sudo_expires_at", e.sudoExpiresAt)]
  }

  function FieldLines(fields: seq<Field>): seq<Line> {
    if fields == [] then []
    else (if fields[0].1.Some? then [FieldLine(fields[0].0, fields[0].1.value)] else []) + FieldLines(fields[1..])
  }

  function RolesLines(roles: seq<string>): seq<Line> {
    if roles == [] then [] else [RolesLine(roles)]
  }

  function HostLines(h: Host): seq<Line> {
    [HeaderLine(h.name)] + FieldLines(Fields(h.entry)) + RolesLines(h.entry.roles) + [Blank]
  }

  function AllLines(hosts: seq<Host>): seq<Line> {
    if hosts == [] then [] else HostLines(hosts[0]) + AllLines(hosts[1..])
  }

  /** `"\n".join(lines)`. */
  function Join(lines: seq<string>): string {
    if lines == [] then "" else if |lines| == 1 then lines[0] else lines[0] + ("\n" + Join(lines[1..]))
  }

  function Shown(lines: seq<Line>): seq<string> {
    seq(|lines|, i requires 0 <= i < |lines| => Show(lines[i]))
  }

  /** The blank line that closes the last table leaves just the end of the line before it. */
  lemma {:induction false} JoinedLines(lines: seq<Line>)
    ensures Join(Shown(lines + [Blank])) == Lined(lines)
  {
    var all := lines + [Blank];
    if lines == [] {
      assert Shown(all) == [""];
    } else {
      JoinedLines(lines[1..]);
      assert all[1..] == lines[1..] + [Blank];
      assert Shown(all)[1..] == Shown(all[1..]);
    }
  }

  /** Every string of the table is free of forbidden control characters. */
  predicate PlainHosts(hosts: seq<Host>) {
    forall i :: 0 <= i < |hosts| ==> PlainHost(hosts[i])
  }

  predicate PlainHost(h: Host) {
    && Plain(h.name) && AllPlain(h.entry.roles)
    && PlainOption(h.entry.token) && PlainOption(h.entry.tokenId) && PlainOption(h.entry.username)
    && PlainOption(h.entry.sudoToken) && PlainOption(h.entry.sudoExpiresAt)
  }

  predicate PlainOption(o: Option<string>) {
    o.Some? ==> Plain(o.value)
  }

  function With(t: Table, f: Field): Table {
    if f.1.Some? then t[f.0 := Str(f.1.value)] else t
  }

  function AddFields(t: Table, fields: seq<Field>): Table
    decreases |fields|
  {
    if fields == [] then t else AddFields(With(t, fields[0]), fields[1..])
  }

  /** The table as the reader returns it: no key for a missing value, nor for an empty list of roles. */
  function TableOf(e: HostEntry): Table {
    var t := AddFields(map[], Fields(e));
    if e.roles == [] then t else t["roles" := Arr(e.roles)]
  }

  function TextOf(t: Table, key: string): Option<string> {
    if key in t && t[key].Str? then Some(t[key].text) else None
  }

  /** `_host_entry_from_table`. */
  function HostEntryFromTable(t: Table): HostEntry {
    HostEntry(TextOf(t, "token"), TextOf(t, "token_id"), TextOf(t, "username"),
              if "roles" in t && t["roles"].Arr? then t["roles"].items else [],
              TextOf(t, "sudo_token"), TextOf(t, "sudo_expires_at"))
  }

  predicate Apart(fields: seq<Field>) {
    forall i, j :: 0 <= i < j < |fields| ==> fields[i].0 != fields[j].0
  }

  lemma KeysApart(e: HostEntry)
    ensures Apart(Fields(e)) && forall i :: 0 <= i < 5 ==> IsKey(Fields(e)[i].0) && Fields(e)[i].0 != "roles"
  {
    assert "token_id"[0] == 't' && "username"[0] == 'u' && "token"[0] == 't' && "roles"[0] == 'r';
  }

  lemma {:induction false} AddedField(t: Table, fields: seq<Field>, key: string)
    requires Apart(fields) && key !in t
    ensures forall i :: 0 <= i < |fields| && fields[i].0 == key ==> TextOf(AddFields(t, fields), key) == fields[i].1
    ensures (forall i :: 0 <= i < |fields| ==> fields[i].0 != key) ==> key !in AddFields(t, fields)
    decreases |fields|
  {
    if fields != [] {
      var rest := fields[1..];
      if fields[0].0 == key {
        KeptField(With(t, fields[0]), rest, key);
      } else {
        AddedField(With(t, fields[0]), rest, key);
        assert forall i :: 0 < i < |fields| ==> fields[i] == rest[i - 1];
      }
    }
  }

  lemma {:induction false} KeptField(t: Table, fields: seq<Field>, key: string)
    requires forall i :: 0 <= i < |fields| ==> fields[i].0 != key
    ensures (key in AddFields(t, fields) <==> key in t) && (key in t ==> AddFields(t, fields)[key] == t[key])
    decreases |fields|
  {
    if fields != [] {
      KeptField(With(t, fields[0]), fields[1..], key);
    }
  }

  lemma EntrySurvivesTable(e: HostEntry)
    ensures HostEntryFromTable(TableOf(e)) == e
  {
    KeysApart(e);
    hide AddFields;
    var fields := Fields(e);
    AddedField(map[], fields, fields[0].0);
    AddedField(map[], fields, fields[1].0);
    AddedField(map[], fields, fields[2].0);
    AddedField(map[], fields, fields[3].0);
    AddedField(map[], fields, fields[4].0);
    AddedField(map[], fields, "roles");
  }

  lemma FirstFieldLine(fields: seq<Field>, more: seq<Line>)
    requires fields != []
    ensures FieldLines(fields) + more ==
              if fields[0].1.Some?
              then [FieldLine(fields[0].0, fields[0].1.value)] + (FieldLines(fields[1..]) + more)
              else FieldLines(fields[1..]) + more
  {
  }

  predicate PlainFields(fields: seq<Field>) {
    forall i :: 0 <= i < |fields| ==> PlainOption(fields[i].1)
  }

  lemma PlainFieldsParts(fields: seq<Field>)
    requires fields != []
    ensures PlainFields(fields) <==> PlainOption(fields[0].1) && PlainFields(fields[1..])
  {
    assert forall i :: 0 < i < |fields| ==> fields[i] == fields[1..][i - 1];
  }

  lemma InterpretField(name: string, text: string, more: seq<Line>, before: seq<Section>, host: string, t: Table)
    requires name !in t
    ensures Interpret([FieldLine(name, text)] + more, before + [Section(host, t)]) ==
              if Plain(text) then Interpret(more, before + [Section(host, t[name := Str(text)])]) else Malformed
  {
    var lines, sections := [FieldLine(name, text)] + more, before + [Section(host, t)];
    assert lines[1..] == more;
    assert sections[|before| := Section(host, t[name := Str(text)])] == before + [Section(host, t[name := Str(text)])];
  }

  /** Reading a table's fields, in order, into the table that is open. */
  lemma {:induction false} InterpretFields(fields: seq<Field>, more: seq<Line>, before: seq<Section>, host: string,
      t: Table)
    requires Apart(fields) && forall i :: 0 <= i < |fields| ==> fields[i].0 !in t
    ensures Interpret(FieldLines(fields) + more, before + [Section(host, t)]) ==
              if PlainFields(fields)
              then Interpret(more, before + [Section(host, AddFields(t, fields))])
              else Malformed
  {
    if fields == [] {
      assert FieldLines(fields) + more == more;
    } else {
      var rest, next := fields[1..], With(t, fields[0]);
      assert forall i :: 0 < i < |fields| ==> fields[i] == rest[i - 1];
      InterpretFields(rest, more, before, host, next);
      PlainFieldsParts(fields);
      FirstFieldLine(fields, more);
      hide Interpret, PlainFields, Apart, FieldLines, Plain;
      if fields[0].1.Some? {
        InterpretField(fields[0].0, fields[0].1.value, FieldLines(rest) + more, before, host, t);
      }
    }
  }

  lemma InterpretRoles(roles: seq<string>, more: seq<Line>, before: seq<Section>, host: string, t: Table)
    requires "roles" !in t
    ensures Interpret(RolesLines(roles) + more, before + [Section(host, t)]) ==
              if AllPlain(roles)
              then Interpret(more, before + [Section(host, if roles == [] then t else t["roles" := Arr(roles)])])
              else Malformed
  {
    var lines, sections := RolesLines(roles) + more, before + [Section(host, t)];
    if roles == [] {
      assert lines == more;
    } else {
      assert lines[0] == RolesLine(roles) && lines[1..] == more;
      assert sections[|before| := Section(host, t["roles" := Arr(roles)])] == before + [Section(host,
          t["roles" := Arr(roles)])];
    }
  }

  /** Reading one host's table. */
  lemma InterpretHost(h: Host, more: seq<Line>, before: seq<Section>)
    requires !Has(before, h.name)
    ensures Interpret([HeaderLine(h.name)] + FieldLines(Fields(h.entry)) + RolesLines(h.entry.roles) + more, before) ==
              if PlainHost(h) then Interpret(more, before + [Section(h.name, TableOf(h.entry))]) else Malformed
  {
    var e, fields := h.entry, Fields(h.entry);
    KeysApart(e);
    AddedField(map[], fields, "roles");
    var afterRoles := more;
    var afterFields := RolesLines(e.roles) + afterRoles;
    var afterHeader := FieldLines(fields) + afterFields;
    var all := [HeaderLine(h.name)] + FieldLines(fields) + RolesLines(e.roles) + more;
    assert all == [HeaderLine(h.name)] + afterHeader;
    assert all[1..] == afterHeader;
    InterpretFields(fields, afterFields, before, h.name, map[]);
    InterpretRoles(e.roles, afterRoles, before, h.name, AddFields(map[], fields));
    hide AddFields, FieldLines;
    assert PlainFields(fields) <==>
             PlainOption(fields[0].1) && PlainOption(fields[1].1) && PlainOption(fields[2].1)
                 && PlainOption(fields[3].1) && PlainOption(fields[4].1);
  }

  predicate Unique(hosts: seq<Host>) {
    forall i, j :: 0 <= i < j < |hosts| ==> hosts[i].name != hosts[j].name
  }

  function Sections(hosts: seq<Host>): (sections: seq<Section>)
    ensures |sections| == |hosts|
    ensures forall i :: 0 <= i < |hosts| ==> sections[i] == SectionOf(hosts[i])
  {
    seq(|hosts|, i requires 0 <= i < |hosts| => SectionOf(hosts[i]))
  }

  lemma InterpretHostLines(h: Host, more: seq<Line>, before: seq<Section>)
    requires !Has(before, h.name)
    ensures Interpret(HostLines(h) + more, before) ==
              if PlainHost(h) then Interpret(more, before + [Section(h.name, TableOf(h.entry))]) else Malformed
  {
    hide FieldLines, Fields, RolesLines, TableOf, PlainHost;
    var rest := [Blank] + more;
    InterpretHost(h, rest, before);
    assert HostLines(h) + more == [HeaderLine(h.name)] + FieldLines(Fields(h.entry)) + RolesLines(h.entry.roles) + rest;
    assert rest[1..] == more;
  }

  lemma PlainHostsParts(hosts: seq<Host>)
    requires hosts != []
    ensures PlainHosts(hosts) <==> PlainHost(hosts[0]) && PlainHosts(hosts[1..])
  {
    assert forall i :: 0 < i < |hosts| ==> hosts[i] == hosts[1..][i - 1];
  }

  function SectionOf(h: Host): Section {
    Section(h.name, TableOf(h.entry))
  }

  lemma FirstSection(hosts: seq<Host>, before: seq<Section>)
    requires hosts != []
    ensures before + Sections(hosts) == before + [SectionOf(hosts[0])] + Sections(hosts[1..])
  {
    hide TableOf, SectionOf;
    var first, rest, all := SectionOf(hosts[0]), Sections(hosts[1..]), Sections(hosts);
    forall i | 0 < i < |all| ensures all[i] == rest[i - 1] {
      assert hosts[1..][i - 1] == hosts[i];
    }
    assert all == [first] + rest;
    hide Sections;
    AppendGroups(before, [first], rest);
  }

  lemma AppendGroups(a: seq<Section>, b: seq<Section>, c: seq<Section>)
    ensures a + (b + c) == a + b + c
  {
  }

  lemma StillUnread(hosts: seq<Host>, before: seq<Section>, next: Section)
    requires Unique(hosts) && hosts != [] && next.host == hosts[0].name
    requires forall i :: 0 <= i < |hosts| ==> !Has(before, hosts[i].name)
    ensures Unique(hosts[1..]) && forall i :: 0 <= i < |hosts[1..]| ==> !Has(before + [next], hosts[1..][i].name)
  {
    var rest := hosts[1..];
    assert forall i :: 0 <= i < |rest| ==> rest[i] == hosts[i + 1];
    forall i | 0 <= i < |rest| ensures !Has(before + [next], rest[i].name) {
      assert !Has(before, hosts[i + 1].name) && hosts[i + 1].name != hosts[0].name;
    }
  }

  lemma {:induction false} InterpretAll(hosts: seq<Host>, before: seq<Section>)
    requires Unique(hosts) && forall i :: 0 <= i < |hosts| ==> !Has(before, hosts[i].name)
    ensures Interpret(AllLines(hosts), before) == if PlainHosts(hosts) then Read(before + Sections(hosts))
        else Malformed
    decreases |hosts|
  {
    if hosts == [] {
      assert before + Sections(hosts) == before;
    } else {
      InterpretHostLines(hosts[0], AllLines(hosts[1..]), before);
      PlainHostsParts(hosts);
      FirstSection(hosts, before);
      StillUnread(hosts, before, SectionOf(hosts[0]));
      hide Interpret, HostLines, TableOf, PlainHost, PlainHosts, Has;
      InterpretAll(hosts[1..], before + [SectionOf(hosts[0])]);
    }
  }

  lemma {:induction false} LinesPrintable(fields: seq<Field>)
    requires forall i :: 0 <= i < |fields| ==> IsKey(fields[i].0)
    ensures forall i :: 0 <= i < |FieldLines(fields)| ==> Printable(FieldLines(fields)[i])
  {
    if fields != [] {
      LinesPrintable(fields[1..]);
    }
  }

  lemma {:induction false} AllPrintable(hosts: seq<Host>)
    ensures forall i :: 0 <= i < |AllLines(hosts)| ==> Printable(AllLines(hosts)[i])
    ensures hosts != [] ==> AllLines(hosts) != [] && AllLines(hosts)[|AllLines(hosts)| - 1] == Blank
  {
    if hosts != [] {
      KeysApart(hosts[0].entry);
      LinesPrintable(Fields(hosts[0].entry));
      AllPrintable(hosts[1..]);
    }
  }

  lemma {:induction false} BlankAtEnd(lines: seq<Line>, sections: seq<Section>)
    ensures Interpret(lines + [Blank], sections) == Interpret(lines, sections)
    decreases |lines|
  {
    var all := lines + [Blank];
    if lines == [] {
      assert all[1..] == [];
    } else {
      assert all[1..] == lines[1..] + [Blank];
      if PlainLine(lines[0]) && Effect(lines[0], sections).Read? {
        BlankAtEnd(lines[1..], Effect(lines[0], sections).sections);
      }
    }
  }

  function Printed(hosts: seq<Host>): string {
    Join(Shown(AllLines(hosts)))
  }

  lemma {:induction false} PrintedIsLined(hosts: seq<Host>) returns (front: seq<Line>)
    ensures Printed(hosts) == Lined(front) && (hosts == [] ==> front == [])
        && (hosts != [] ==> AllLines(hosts) == front + [Blank])
    ensures forall i :: 0 <= i < |front| ==> Printable(front[i])
  {
    var lines := AllLines(hosts);
    if hosts == [] {
      front := [];
    } else {
      AllPrintable(hosts);
      hide AllLines, Printable, Lined, Join;
      front := lines[..|lines| - 1];
      assert lines == front + [Blank];
      JoinedLines(front);
    }
  }

  /**
   * The printed file is well formed exactly when no string holds a forbidden control
   * character, and then it holds the hosts' tables, in order.
   */
  lemma PrintedReadsBack(hosts: seq<Host>)
    requires Unique(hosts)
    ensures ReadDocument(Printed(hosts)) == if PlainHosts(hosts) then Read(Sections(hosts)) else Malformed
  {
    hide Rest, Printed, Lined, AllLines, Interpret, PlainHosts, Printable, Sections;
    InterpretAll(hosts, []);
    assert [] + Sections(hosts) == Sections(hosts);
    var front := PrintedIsLined(hosts);
    ReadLines(front, []);
    BlankAtEnd(front, []);
    if hosts == [] {
      EmptyLines();
    }
  }

  lemma EmptyLines()
    ensures AllLines([]) == []
  {
  }

  /** `{host: _host_entry_from_table(table) for host, table in hosts.items()}`. */
  function Hosts(sections: seq<Section>): (hosts: seq<Host>)
    ensures |hosts| == |sections|
    ensures forall i :: 0 <= i < |sections| ==>
        hosts[i] == Host(sections[i].host, HostEntryFromTable(sections[i].table))
  {
    seq(|sections|, i requires 0 <= i < |sections| => Host(sections[i].host, HostEntryFromTable(sections[i].table)))
  }

  lemma HostsOfSections(hosts: seq<Host>)
    ensures Hosts(Sections(hosts)) == hosts
  {
    forall i | 0 <= i < |hosts| ensures Hosts(Sections(hosts))[i] == hosts[i] {
      EntrySurvivesTable(hosts[i].entry);
    }
  }

  /** What is read from the printed file is what was printed, exactly when its strings are plain. */
  lemma PrintThenRead(hosts: seq<Host>)
    requires Unique(hosts)
    ensures var document := ReadDocument(Printed(hosts));
            (document.Read? && Hosts(document.sections) == hosts) <==> PlainHosts(hosts)
  {
    PrintedReadsBack(hosts);
    HostsOfSections(hosts);
  }

  method PrintFields(lines: seq<string>, fields: seq<Field>) returns (more: seq<string>)
    ensures more == lines + Shown(FieldLines(fields))
  {
    more := lines;
    ghost var shown: seq<Line> := [];
    for i := 0 to |fields|
      invariant more == lines + Shown(shown) && shown + FieldLines(fields[i..]) == FieldLines(fields)
    {
      assert fields[i..][1..] == fields[i + 1..];
      if fields[i].1.Some? {
        more := more + [fields[i].0 + " = " + TomlString(fields[i].1.value)];
        shown := shown + [FieldLine(fields[i].0, fields[i].1.value)];
      }
    }
    assert shown == FieldLines(fields);
  }

  lemma ShownParts(a: seq<Line>, b: seq<Line>)
    ensures Shown(a + b) == Shown(a) + Shown(b)
  {
  }

  lemma ShownOne(line: Line)
    ensures Shown([line]) == [Show(line)]
  {
  }

  method PrintHost(lines: seq<string>, h: Host) returns (more: seq<string>)
    ensures more == lines + Shown(HostLines(h))
  {
    hide FieldLines, Fields, Shown, TomlString, Commas;
    more := lines + ["[hosts." + TomlString(h.name) + "]"];
    ShownOne(HeaderLine(h.name));
    more := PrintFields(more, Fields(h.entry));
    ghost var shown := [HeaderLine(h.name)] + FieldLines(Fields(h.entry));
    ShownParts([HeaderLine(h.name)], FieldLines(Fields(h.entry)));
    assert more == lines + Shown(shown);
    PrintedRoles(h.entry.roles);
    if h.entry.roles != [] {
      var roles := Commas(h.entry.roles);
      more := more + ["roles = [" + roles + "]"];
    }
    ShownParts(shown, RolesLines(h.entry.roles));
    more := more + [""];
    ShownOne(Blank);
    ShownParts(shown + RolesLines(h.entry.roles), [Blank]);
  }

  lemma PrintedRoles(roles: seq<string>)
    ensures Shown(RolesLines(roles)) == if roles == [] then [] else ["roles = [" + Commas(roles) + "]"]
  {
  }

  lemma NextHost(hosts: seq<Host>, k: nat)
    requires k < |hosts|
    ensures AllLines(hosts[..k + 1]) == AllLines(hosts[..k]) + HostLines(hosts[k])
  {
    var front := hosts[..k + 1];
    if k == 0 {
      assert front[1..] == [] && hosts[..0] == [];
    } else {
      NextHost(hosts[1..], k - 1);
      assert front[1..] == hosts[1..][..k] && hosts[..k][1..] == hosts[1..][..k - 1];
    }
  }

  /** `_dump_toml`. */
  method DumpToml(hosts: seq<Host>) returns (text: string)
    ensures text == Printed(hosts)
  {
    hide HostLines;
    var lines: seq<string> := [];
    assert hosts[..0] == [];
    for k := 0 to |hosts|
      invariant lines == Shown(AllLines(hosts[..k]))
    {
      hide AllLines;
      NextHost(hosts, k);
      ShownParts(AllLines(hosts[..k]), HostLines(hosts[k]));
      lines := PrintHost(lines, hosts[k]);
    }
    assert hosts[..|hosts|] == hosts;
    text := Join(lines);
  }

  /** The credentials file: its content and its permission bits. */
  datatype File = File(content: string, mode: nat)

  datatype LoadError = Insecure(mode: nat) | NotToml

  class HostsStore {
    var file: Option<File>

    constructor (file: Option<File>)
      ensures this.file == file
    {
      this.file := file;
    }

    /** Writes at mode 0600, also over a file that was more permissive. */
    method SaveHosts(hosts: seq<Host>)
      requires Unique(hosts)
      modifies this
      ensures file.Some? && file.value.mode == 0x180
      ensures ReadDocument(file.value.content) == if PlainHosts(hosts) then Read(Sections(hosts)) else Malformed
    {
      var content := DumpToml(hosts);
      PrintedReadsBack(hosts);
      file := Some(File(content, if file.Some? then file.value.mode else 0x180));
      file := Some(file.value.(mode := 0x180));
    }

    /** Refuses a file with any group or other bit set. */
    method LoadHosts() returns (r: Result<seq<Host>, LoadError>)
      ensures file.None? ==> r == Success([])
      ensures file.Some? && file.value.mode % 64 != 0 ==> r == Failure(Insecure(file.value.mode))
      ensures file.Some? && file.value.mode % 64 == 0 ==>
                r == match ReadDocument(file.value.content)
                     case Read(sections) => Success(Hosts(sections))
                     case Malformed => Failure(NotToml)
    {
      if file.None? {
        return Success([]);
      }
      if file.value.mode % 64 != 0 {
        return Failure(Insecure(file.value.mode));
      }
      var data := ReadDocument(file.value.content);
      if data.Malformed? {
        return Failure(NotToml);
      }
      return Success(Hosts(data.sections));
    }
  }

  // ----- what the file looks like -----

  function Ended(lines: seq<string>): string {
    if lines == [] then "" else lines[0] + ("\n" + Ended(lines[1..]))
  }

  /** A field's line, or none for a missing value. */
  function Optional(key: string, value: Option<string>): seq<string> {
    if value.None? then [] else [key + " = " + TomlString(value.value)]
  }

  function RolesText(roles: seq<string>): string {
    if roles == [] then ""
    else if |roles| == 1 then TomlString(roles[0])
    else TomlString(roles[0]) + ", " + RolesText(roles[1..])
  }

  lemma {:induction false} LinedIsEnded(lines: seq<Line>)
    ensures Lined(lines) == Ended(Shown(lines))
  {
    hide Show;
    if lines != [] {
      LinedIsEnded(lines[1..]);
      FirstShown(lines);
      hide Shown;
    }
  }

  lemma FirstShown(lines: seq<Line>)
    requires lines != []
    ensures Shown(lines) != [] && Shown(lines)[0] == Show(lines[0]) && Shown(lines)[1..] == Shown(lines[1..])
  {
    hide Show;
  }

  lemma {:induction false} CommasAreRoles(roles: seq<string>)
    ensures Commas(roles) == RolesText(roles)
  {
    if |roles| > 1 {
      CommasAreRoles(roles[1..]);
    }
  }

  lemma FirstField(f: Field, fields: seq<Field>)
    ensures Shown(FieldLines([f] + fields)) == Optional(f.0, f.1) + Shown(FieldLines(fields))
  {
    assert ([f] + fields)[1..] == fields;
    ShownParts(if f.1.Some? then [FieldLine(f.0, f.1.value)] else [], FieldLines(fields));
  }

  lemma ShownFields(e: HostEntry)
    ensures Shown(FieldLines(Fields(e))) ==
              Optional("token", e.token) + (Optional("token_id", e.tokenId) + (Optional("username", e.username)
              + (Optional("sudo_token", e.sudoToken) + Optional("sudo_expires_at", e.sudoExpiresAt))))
  {
    var f4 := [("sudo_expires_at", e.sudoExpiresAt)];
    var f3 := [("sudo_token", e.sudoToken)] + f4;
    var f2 := [("username", e.username)] + f3;
    var f1 := [("token_id", e.tokenId)] + f2;
    assert Fields(e) == [("token", e.token)] + f1;
    hide FieldLines, Optional, Shown;
    FirstField(("token", e.token), f1);
    FirstField(("token_id", e.tokenId), f2);
    FirstField(("username", e.username), f3);
    FirstField(("sudo_token", e.sudoToken), f4);
    FirstField(("sudo_expires_at", e.sudoExpiresAt), []);
    assert f4 == f4 + [];
    NoFields();
  }

  lemma NoFields()
    ensures Shown(FieldLines([])) == []
  {
  }

  /**
   * One host in the file: its header, a line for each value that is there, in this order and under these
   * names, and its roles in one array unless there are none.
   */
  lemma HostIsPrintedAs(h: Host)
    ensures Printed([h]) == Ended(
              ["[hosts." + TomlString(h.name) + "]"]
              + (Optional("token", h.entry.token) + (Optional("token_id", h.entry.tokenId)
              + (Optional("username", h.entry.username) + (Optional("sudo_token", h.entry.sudoToken)
              + Optional("sudo_expires_at", h.entry.sudoExpiresAt)))))
              + (if h.entry.roles == [] then [] else ["roles = [" + RolesText(h.entry.roles) + "]"]))
  {
    hide FieldLines, Fields, Optional, Shown, TomlString, Commas, RolesText, Join, Lined, Ended;
    var front := [HeaderLine(h.name)] + FieldLines(Fields(h.entry)) + RolesLines(h.entry.roles);
    OneHost(h);
    JoinedLines(front);
    LinedIsEnded(front);
    ShownParts([HeaderLine(h.name)] + FieldLines(Fields(h.entry)), RolesLines(h.entry.roles));
    ShownParts([HeaderLine(h.name)], FieldLines(Fields(h.entry)));
    ShownOne(HeaderLine(h.name));
    ShownFields(h.entry);
    PrintedRoles(h.entry.roles);
    CommasAreRoles(h.entry.roles);
  }

  lemma OneHost(h: Host)
    ensures AllLines([h]) == [HeaderLine(h.name)] + FieldLines(Fields(h.entry)) + RolesLines(h.entry.roles) + [Blank]
  {
    hide FieldLines, Fields, RolesLines;
    assert [h][1..] == [];
  }

  /** A string in the file: quotes around it, and a backslash before every quote and backslash in it. */
  lemma QuotedExactly(c: char, rest: string)
    ensures TomlString("") == "\"\""
    ensures TomlString([c] + rest) ==
              "\"" + ((if c == '"' || c == '\\' then "\\" + [c] else [c]) + TomlString(rest)[1..])
  {
    EscapedText("");
    EscapedText([c] + rest);
    EscapedText(rest);
    EscapedFirst(c, rest);
    hide TomlString, Escaped;
    assert ("\"" + (Escaped(rest) + "\""))[1..] == Escaped(rest) + "\"";
    Associative(if c == '"' || c == '\\' then "\\" + [c] else [c], Escaped(rest), "\"");
  }

  lemma EscapedText(value: string)
    ensures TomlString(value) == "\"" + (Escaped(value) + "\"") && Escaped("") == ""
  {
    TwoPassesAreOne(value);
    hide ReplaceChar;
  }

  lemma EscapedFirst(c: char, rest: string)
    ensures Escaped([c] + rest) == (if c == '"' || c == '\\' then "\\" + [c] else [c]) + Escaped(rest)
  {
    assert ([c] + rest)[1..] == rest;
    assert "\\" + ['"'] == "\\\"" && "\\" + ['\\'] == "\\\\";
  }
}
