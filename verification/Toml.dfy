/**
 * A reader for the part of TOML v1.0.0 that the hosts file is written in: sections
 * "String" (basic strings), "Keys" (bare keys), "Array" on one line, and "Table".
 */
module Toml {

  datatype Parsed<T> = Fail | Got(value: T, rest: string)

  datatype Value = Str(text: string) | Arr(items: seq<string>)

  type Table = map<string, Value>

  /** One `[hosts."..."]` table. */
  datatype Section = Section(host: string, table: Table)

  datatype Document = Malformed | Read(sections: seq<Section>)

  /** Control characters other than tab may not stand in a basic string. */
  predicate Forbidden(c: char) {
    c < '\t' || '\t' < c < ' ' || c == '\U{7F}'
  }

  function Unescape(c: char): seq<char> {
    match c
    case 'b' => ['\U{8}']
    case 't' => ['\t']
    case 'n' => ['\n']
    case 'f' => ['\U{C}']
    case 'r' => ['\r']
    case '"' => ['"']
    case '\\' => ['\\']
    case _ => []
  }

  /** What is left over is shorter than what was there. */
  predicate Shrinks<T>(before: string, p: Parsed<T>) {
    p.Got? ==> |p.rest| < |before|
  }

  function Prepend<T>(head: seq<T>, tail: Parsed<seq<T>>): Parsed<seq<T>> {
    if tail.Got? then Got(head + tail.value, tail.rest) else Fail
  }

  /** The rest of a basic string, after its opening quote. */
  function Chars(text: string): (p: Parsed<string>)
    ensures Shrinks(text, p)
  {
    if text == "" then Fail
    else if text[0] == '"' then Got("", text[1..])
    else if text[0] == '\\' then
      if |text| < 2 || Unescape(text[1]) == [] then Fail else Prepend(Unescape(text[1]), Chars(text[2..]))
    else if Forbidden(text[0]) then Fail
    else Prepend([text[0]], Chars(text[1..]))
  }

  function BasicString(text: string): (p: Parsed<string>)
    ensures Shrinks(text, p)
  {
    if text == "" || text[0] != '"' then Fail else Chars(text[1..])
  }

  function SkipBlanks(text: string): (rest: string)
    ensures |rest| <= |text|
  {
    if text != "" && (text[0] == ' ' || text[0] == '\t') then SkipBlanks(text[1..]) else text
  }

  /** The elements of an array from its next element, or its end, on. */
  function Elements(text: string): (p: Parsed<seq<string>>)
    ensures Shrinks(text, p)
    decreases |text|
  {
    var here := SkipBlanks(text);
    if here == "" then Fail
    else if here[0] == ']' then Got([], here[1..])
    else
      var item := BasicString(here);
      if item.Fail? then Fail
      else
        var next := SkipBlanks(item.rest);
        if next == "" then Fail
        else if next[0] == ']' then Got([item.value], next[1..])
        else if next[0] == ',' then Prepend([item.value], Elements(next[1..]))
        else Fail
  }

  function ReadValue(text: string): (p: Parsed<Value>)
    ensures Shrinks(text, p)
  {
    if text != "" && text[0] == '[' then
      var items := Elements(text[1..]);
      if items.Got? then Got(Arr(items.value), items.rest) else Fail
    else
      var s := BasicString(text);
      if s.Got? then Got(Str(s.value), s.rest) else Fail
  }

  predicate KeyChar(c: char) {
    'a' <= c <= 'z' || 'A' <= c <= 'Z' || '0' <= c <= '9' || c == '_' || c == '-'
  }

  function BareKey(text: string): (p: Parsed<string>)
    ensures p.Got? && |p.rest| + |p.value| == |text|
  {
    if text == "" || !KeyChar(text[0]) then Got("", text) else Prepend([text[0]], BareKey(text[1..]))
  }

  /** Nothing but blanks up to the end of the line. */
  function LineEnd<T>(value: T, text: string): (p: Parsed<T>)
    ensures p.Got? ==> p.value == value && |p.rest| <= |text|
  {
    var here := SkipBlanks(text);
    if here == "" then Got(value, "") else if here[0] == '\n' then Got(value, here[1..]) else Fail
  }

  /** `[hosts."..."]` */
  function Header(text: string): (p: Parsed<string>)
    ensures Shrinks(text, p)
  {
    if !("[hosts." <= text) then Fail
    else
      var host := BasicString(text[7..]);
      if host.Fail? || host.rest == "" || host.rest[0] != ']' then Fail else LineEnd(host.value, host.rest[1..])
  }

  /** `key = value` */
  function Pair(text: string): (p: Parsed<(string, Value)>)
    ensures Shrinks(text, p)
  {
    var key := BareKey(text);
    if key.value == "" then Fail
    else
      var after := SkipBlanks(key.rest);
      if after == "" || after[0] != '=' then Fail
      else
        var value := ReadValue(SkipBlanks(after[1..]));
        if value.Fail? then Fail else LineEnd((key.value, value.value), value.rest)
  }

  predicate Has(sections: seq<Section>, host: string) {
    exists i :: 0 <= i < |sections| && sections[i].host == host
  }

  /** Adds a key to the table that is open; a key may not be set twice. */
  function Set(sections: seq<Section>, key: string, value: Value): Document {
    if sections == [] then Malformed
    else
      var n := |sections| - 1;
      if key in sections[n].table then Malformed
      else Read(sections[n := Section(sections[n].host, sections[n].table[key := value])])
  }

  /** The rest of a document whose sections so far are `sections`; a table may not be opened twice. */
  function Rest(text: string, sections: seq<Section>): Document
    decreases |text|
  {
    if text == "" then Read(sections)
    else if text[0] == '\n' then Rest(text[1..], sections)
    else if text[0] == '[' then
      var header := Header(text);
      if header.Fail? || Has(sections, header.value) then Malformed
      else Rest(header.rest, sections + [Section(header.value, map[])])
    else
      var pair := Pair(text);
      if pair.Fail? then Malformed
      else
        var updated := Set(sections, pair.value.0, pair.value.1);
        if updated.Malformed? then Malformed else Rest(pair.rest, updated.sections)
  }

  function ReadDocument(text: string): Document {
    Rest(text, [])
  }

  /** The short escapes a basic string may hold, and what each stands for. */
  lemma ShortEscapes(rest: string)
    ensures Chars("\\n" + rest) == Prepend("\n", Chars(rest)) && Chars("\\t" + rest) == Prepend("\t", Chars(rest))
    ensures Chars("\\r" + rest) == Prepend("\r", Chars(rest)) && Chars("\\\"" + rest) == Prepend("\"", Chars(rest))
    ensures Chars("\\\\" + rest) == Prepend("\\", Chars(rest)) && Chars("\\x" + rest) == Fail
  {
    assert ("\\n" + rest)[2..] == rest && ("\\t" + rest)[2..] == rest && ("\\r" + rest)[2..] == rest;
    assert ("\\\"" + rest)[2..] == rest && ("\\\\" + rest)[2..] == rest;
  }

  /** A key lands in the table opened last, once. */
  lemma KeysGoToLastTable(sections: seq<Section>, key: string, value: Value)
    ensures Set(sections, key, value).Malformed? <==> sections == [] || key in sections[|sections| - 1].table
    ensures Set(sections, key, value).Read? ==>
              var n, after := |sections| - 1, Set(sections, key, value).sections;
              && |after| == n + 1 && after[..n] == sections[..n] && after[n].host == sections[n].host
              && after[n].table == sections[n].table[key := value]
  {
  }
}
