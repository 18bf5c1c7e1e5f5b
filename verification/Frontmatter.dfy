/** The frontmatter printer and parser. */
module Frontmatter {
  import opened Text

  datatype Scalar = Str(s: string) | Flag(b: bool) | Int(n: int)

  datatype Value = Nothing | One(scalar: Scalar) | Many(items: seq<Scalar>)

  /** A dict: its items in insertion order. */
  type Dict<V> = seq<(string, V)>

  // ----- characters

  /** Where str.splitlines breaks. */
  predicate IsBreak(c: char) {
    || '\n' <= c <= '\r' || '\U{1C}' <= c <= '\U{1E}' || c == '\U{85}' || c == '\U{2028}' || c == '\U{2029}'
  }

  /** What str.strip removes. */
  predicate IsSpace(c: char) {
    || '\t' <= c <= '\r' || '\U{1C}' <= c <= ' ' || c == '\U{85}' || c == '\U{A0}' || c == '\U{1680}'
    || '\U{2000}' <= c <= '\U{200A}' || c == '\U{2028}' || c == '\U{2029}' || c == '\U{202F}' || c == '\U{205F}'
    || c == '\U{3000}'
  }

  predicate IsLetter(c: char) { 'a' <= c <= 'z' || 'A' <= c <= 'Z' }

  predicate IsSafe(c: char) { IsLetter(c) || IsDigit(c) || c in "_.:/@+-" }

  predicate AllSafe(s: string) { s != "" && forall i :: 0 <= i < |s| ==> IsSafe(s[i]) }

  predicate OneLine(s: string) { forall i :: 0 <= i < |s| ==> !IsBreak(s[i]) }

  /** A key that a line can spell. */
  predicate IsKey(k: string) {
    && OneLine(k) && ':' !in k
    && (k != "" ==> !IsSpace(k[0]) && !IsSpace(k[|k| - 1]) && k[0] != '#')
  }

  // ----- printing

  function Escape(s: string): string {
    if s == "" then ""
    else (if s[0] == '\\' then "\\\\" else if s[0] == '"' then "\\\"" else [s[0]]) + Escape(s[1..])
  }

  /** The pattern's closing $ also matches before a final newline. */
  predicate Unquoted(s: string) {
    AllSafe(s) || (s != "" && s[|s| - 1] == '\n' && AllSafe(s[..|s| - 1]))
  }

  /** _yaml_scalar_value */
  function Print(v: Scalar): string {
    match v
    case Flag(b) => if b then "true" else "false"
    case Int(n) => ShowInt(n)
    case Str(s) => if Unquoted(s) then s else "\"" + Escape(s) + "\""
  }

  function ItemLines(items: seq<Scalar>): seq<string> {
    if items == [] then [] else ItemLines(items[..|items| - 1]) + ["  - " + Print(items[|items| - 1])]
  }

  /** The lines one entry contributes. */
  function EntryLines(k: string, v: Value): seq<string> {
    match v
    case Nothing => []
    case One(scalar) => if scalar == Str("") then [] else [k + ": " + Print(scalar)]
    case Many(items) => [k + ":"] + ItemLines(items)
  }

  function YamlLines(m: Dict<Value>): seq<string> {
    if m == [] then [] else YamlLines(m[..|m| - 1]) + EntryLines(m[|m| - 1].0, m[|m| - 1].1)
  }

  function Serialize(m: Dict<Value>, body: string): string {
    Join(["---"] + YamlLines(m) + ["---"], "\n") + "\n\n" + body
  }

  lemma YamlLinesNext(m: Dict<Value>, k: nat)
    requires k < |m|
    ensures ["---"] + YamlLines(m[..k + 1]) == ["---"] + YamlLines(m[..k]) + EntryLines(m[k].0, m[k].1)
  {
    assert m[..k + 1][..k] == m[..k];
    JoinAssociates(["---"], YamlLines(m[..k]), EntryLines(m[k].0, m[k].1));
  }

  lemma JoinAssociates(a: seq<string>, b: seq<string>, c: seq<string>)
    ensures a + (b + c) == a + b + c
  {
  }

  lemma ItemLinesNext(items: seq<Scalar>, i: nat)
    requires i < |items|
    ensures ItemLines(items[..i + 1]) == ItemLines(items[..i]) + ["  - " + Print(items[i])]
  {
    assert items[..i + 1][..i] == items[..i];
  }

  /** serialize_frontmatter, line by line. */
  method SerializeFrontmatter(m: Dict<Value>, body: string) returns (content: string)
    ensures content == Serialize(m, body)
  {
    var lines := ["---"];
    for k := 0 to |m|
      invariant lines == ["---"] + YamlLines(m[..k])
    {
      YamlLinesNext(m, k);
      lines := AppendEntry(lines, m[k].0, m[k].1);
    }
    assert m[..|m|] == m;
    content := Join(lines + ["---"], "\n") + "\n\n" + body;
  }

  method AppendEntry(lines: seq<string>, key: string, v: Value) returns (r: seq<string>)
    ensures r == lines + EntryLines(key, v)
  {
    match v {
      case Nothing =>
        r := lines;
      case One(scalar) =>
        r := if scalar != Str("") then lines + [key + ": " + Print(scalar)] else lines;
      case Many(items) =>
        r := lines + [key + ":"];
        for i := 0 to |items|
          invariant r == lines + ([key + ":"] + ItemLines(items[..i]))
        {
          ItemLinesNext(items, i);
          r := r + ["  - " + Print(items[i])];
        }
        assert items[..|items|] == items;
    }
  }

  // ----- parsing

  function StripStart(s: string): string {
    if s != "" && IsSpace(s[0]) then StripStart(s[1..]) else s
  }

  function StripEnd(s: string): string {
    if s != "" && IsSpace(s[|s| - 1]) then StripEnd(s[..|s| - 1]) else s
  }

  function Strip(s: string): string { StripEnd(StripStart(s)) }

  /** Index of the first line break, or the length. */
  function FirstBreak(s: string): (n: nat)
    ensures n <= |s| && OneLine(s[..n]) && (n < |s| ==> IsBreak(s[n]))
  {
    if s == "" || IsBreak(s[0]) then 0
    else
      var n := 1 + FirstBreak(s[1..]);
      assert s[..n] == [s[0]] + s[1..][..n - 1];
      n
  }

  /** s.splitlines() */
  function SplitLines(s: string): seq<string>
    decreases |s|
  {
    if s == "" then []
    else
      var n := FirstBreak(s);
      if n == |s| then [s]
      else [s[..n]] + SplitLines(s[if "\r\n" <= s[n..] then n + 2 else n + 1..])
  }

  /** Index of the first occurrence of c, or the length. */
  function Find(s: string, c: char): (n: nat)
    ensures n <= |s| && c !in s[..n] && (n < |s| ==> s[n] == c)
  {
    if s == "" || s[0] == c then 0
    else
      var n := 1 + Find(s[1..], c);
      assert s[..n] == [s[0]] + s[1..][..n - 1];
      n
  }

  predicate Wrapped(v: string, q: char) { v != "" && v[0] == q && v[|v| - 1] == q }

  /** v[1:-1] for a value in matching quotes. */
  function Unquote(v: string): string {
    if Wrapped(v, '"') || Wrapped(v, '\'') then (if |v| >= 2 then v[1..|v| - 1] else "") else v
  }

  /** d[k] = v */
  function Put<V>(d: Dict<V>, k: string, v: V): Dict<V> {
    if d == [] then [(k, v)]
    else if d[0].0 == k then [(k, v)] + d[1..]
    else [d[0]] + Put(d[1..], k, v)
  }

  /** What one line does to the dict. */
  function ReadLine(d: Dict<string>, line: string): Dict<string> {
    var s := Strip(line);
    if s == "" || s[0] == '#' || Find(s, ':') == |s| then d
    else
      var n := Find(s, ':');
      Put(d, Strip(s[..n]), Unquote(Strip(s[n + 1..])))
  }

  function ReadLines(d: Dict<string>, lines: seq<string>): Dict<string> {
    if lines == [] then d else ReadLine(ReadLines(d, lines[..|lines| - 1]), lines[|lines| - 1])
  }

  /** The closing marker: where its line break begins and how long the two are together. */
  datatype Close = Close(at: nat, len: nat)

  function FindClose(s: string): Option<Close> {
    if "\n---" <= s then Some(Close(0, 4))
    else if "\r\n---" <= s then Some(Close(0, 5))
    else if s == "" then None
    else
      match FindClose(s[1..])
      case None => None
      case Some(c) => Some(Close(c.at + 1, c.len))
  }

  predicate Fits(s: string, c: Close) { 4 <= c.len && c.at + c.len <= |s| && IsBreak(s[c.at]) }

  lemma {:induction false} CloseFits(s: string)
    ensures FindClose(s).Some? ==> Fits(s, FindClose(s).value)
  {
    if !("\n---" <= s) && !("\r\n---" <= s) && s != "" {
      CloseFits(s[1..]);
    }
  }

  /** The text after the opening marker and its line break. */
  function AfterOpen(content: string): Option<string> {
    if "---\r\n" <= content then Some(content[5..])
    else if "---\n" <= content then Some(content[4..])
    else None
  }

  datatype Parsed = Parsed(fields: Dict<string>, body: string)

  function Fields(text: string): Dict<string> { ReadLines([], SplitLines(text)) }

  /** The text s after the opening marker, taken apart at the closing one. */
  function TakeApart(content: string, s: string): Parsed {
    match FindClose(s)
    case None => Parsed([], content)
    case Some(c) =>
      CloseFits(s);
      Parsed(Fields(s[..c.at]), StripStart(s[c.at + c.len..]))
  }

  function Parse(content: string): Parsed {
    match AfterOpen(content)
    case None => Parsed([], content)
    case Some(s) => TakeApart(content, s)
  }

  lemma ReadLinesNext(lines: seq<string>, line: string)
    ensures ReadLines([], lines + [line]) == ReadLine(ReadLines([], lines), line)
  {
    assert (lines + [line])[..|lines|] == lines;
  }

  method ReadField(d: Dict<string>, text: string) returns (r: Dict<string>)
    ensures r == ReadLine(d, text)
  {
    r := d;
    var line := Strip(text);
    if line != "" && line[0] != '#' && Find(line, ':') < |line| {
      var at := Find(line, ':');
      r := Put(d, Strip(line[..at]), Unquote(Strip(line[at + 1..])));
    }
  }

  method ReadFields(text: string) returns (fields: Dict<string>)
    ensures fields == Fields(text)
  {
    var lines := SplitLines(text);
    fields := [];
    for k := 0 to |lines|
      invariant fields == ReadLines([], lines[..k])
    {
      assert lines[..k + 1] == lines[..k] + [lines[k]];
      ReadLinesNext(lines[..k], lines[k]);
      fields := ReadField(fields, lines[k]);
    }
    assert lines[..|lines|] == lines;
  }

  /** parse_frontmatter, line by line. */
  method ParseFrontmatter(content: string) returns (r: Parsed)
    ensures r == Parse(content)
  {
    var open := AfterOpen(content);
    if open.None? {
      return Parsed([], content);
    }
    var s := open.value;
    var close := FindClose(s);
    if close.None? {
      return Parsed([], content);
    }
    CloseFits(s);
    var fields := ReadFields(s[..close.value.at]);
    r := Parsed(fields, StripStart(s[close.value.at + close.value.len..]));
  }
}
