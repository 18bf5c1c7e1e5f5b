/** When reading back what was printed gives the same fields and the same body. */
module FrontmatterRoundTrip {
  import opened Text
  import opened Frontmatter

  /** The string a scalar stands for when read back. */
  function Shown(v: Scalar): string {
    match v
    case Flag(b) => if b then "true" else "false"
    case Int(n) => ShowInt(n)
    case Str(s) => s
  }

  /** The fields a printed dict should read back as: empty ones are dropped, the others are strings. */
  function Kept(m: Dict<Value>): Dict<string> {
    if m == [] then []
    else Kept(m[..|m| - 1]) + match m[|m| - 1].1 {
      case One(scalar) => if scalar == Str("") then [] else [(m[|m| - 1].0, Shown(scalar))]
      case _ => []
    }
  }

  predicate Prints(v: Value) { v.One? && v.scalar != Str("") }

  /** A dict without lists. */
  ghost predicate Flat(m: Dict<Value>) {
    && (forall i :: 0 <= i < |m| ==> !m[i].1.Many?)
    && (forall i, j :: 0 <= i < j < |m| ==> m[i].0 != m[j].0)
  }

  /** A line can spell every key that is printed. */
  ghost predicate Spelled(m: Dict<Value>) {
    forall i :: 0 <= i < |m| && Prints(m[i].1) ==> IsKey(m[i].0)
  }

  /** No field but the first has a key that looks like the closing marker. */
  ghost predicate NoLateMarker(d: Dict<string>) {
    forall i :: 1 <= i < |d| ==> !("---" <= d[i].0)
  }

  /** No line break, quote or backslash. */
  predicate PlainText(s: string) {
    OneLine(s) && '"' !in s && '\\' !in s
  }

  predicate Survives(v: Scalar) { v.Str? ==> PlainText(v.s) }

  predicate SingleLine(v: Scalar) { v.Str? ==> OneLine(v.s) }

  predicate StartsWithSpace(s: string) { s != "" && IsSpace(s[0]) }

  // ----- scalars

  function ReadBack(v: Scalar): string { Unquote(Print(v)) }

  lemma {:induction false} EscapeGrows(s: string)
    ensures |Escape(s)| >= |s|
    ensures if '"' in s || '\\' in s then |Escape(s)| > |s| else Escape(s) == s
  {
    if s != "" {
      EscapeGrows(s[1..]);
      assert s == [s[0]] + s[1..];
    }
  }

  lemma {:induction false} EscapeOneLine(s: string)
    requires OneLine(s)
    ensures OneLine(Escape(s))
  {
    if s != "" {
      EscapeOneLine(s[1..]);
    }
  }

  lemma ShowIntSafe(n: int)
    ensures AllSafe(ShowInt(n))
  {
    DecValue(if n >= 0 then n else -n);
  }

  lemma SafeIsPlain(s: string)
    requires AllSafe(s)
    ensures PlainText(s) && Unquote(s) == s && !IsSpace(s[0]) && !IsSpace(s[|s| - 1])
  {
  }

  lemma QuotedReads(s: string)
    ensures Unquote("\"" + s + "\"") == s
  {
    var v := "\"" + s + "\"";
    assert v[1..|v| - 1] == s;
  }

  lemma TextShape(s: string)
    requires OneLine(s) && s != "" && !AllSafe(s)
    ensures
      var p := Print(Str(s));
      OneLine(p) && |p| >= 2 && p[0] == '"' && p[|p| - 1] == '"' && Unquote(p) == Escape(s)
  {
    assert !Unquoted(s);
    EscapeOneLine(s);
    QuotedReads(Escape(s));
  }

  /** A printed single-line scalar is one line without outer spaces. */
  lemma PrintShape(v: Scalar)
    requires SingleLine(v) && v != Str("")
    ensures
      var p := Print(v);
      p != "" && OneLine(p) && !IsSpace(p[0]) && !IsSpace(p[|p| - 1])
    ensures ReadBack(v) == Shown(v) <==> Survives(v)
  {
    match v {
      case Flag(b) => SafeIsPlain(Print(v));
      case Int(n) => ShowIntSafe(n); SafeIsPlain(Print(v));
      case Str(s) =>
        if AllSafe(s) {
          SafeIsPlain(s);
        } else {
          EscapeGrows(s);
          TextShape(s);
        }
    }
  }

  // ----- lines

  lemma {:induction false} FindAt(a: string, c: char, rest: string)
    requires c !in a
    ensures Find(a + [c] + rest, c) == |a|
  {
    if a == "" {
      assert a + [c] + rest == [c] + rest;
    } else {
      assert (a + [c] + rest)[1..] == a[1..] + [c] + rest;
      FindAt(a[1..], c, rest);
    }
  }

  lemma StripNothing(s: string)
    requires s != "" && !IsSpace(s[0]) && !IsSpace(s[|s| - 1])
    ensures Strip(s) == s && Strip(" " + s) == s
  {
    assert (" " + s)[1..] == s;
  }

  lemma EntryShape(k: string, p: string)
    requires IsKey(k) && p != ""
    ensures
      var line := k + ": " + p;
      && line != "" && line[0] == (if k == "" then ':' else k[0]) && line[|line| - 1] == p[|p| - 1]
      && Find(line, ':') == |k| < |line| && line[..|k|] == k && line[|k| + 1..] == " " + p
  {
    assert k + ": " + p == k + [':'] + (" " + p);
    FindAt(k, ':', " " + p);
  }

  lemma StripKey(k: string)
    requires IsKey(k)
    ensures Strip(k) == k
  {
    if k != "" { StripNothing(k); }
  }

  /** A printed line sets its key to its unquoted value. */
  lemma ReadsLine(d: Dict<string>, k: string, p: string)
    requires IsKey(k) && p != "" && !IsSpace(p[0]) && !IsSpace(p[|p| - 1])
    ensures ReadLine(d, k + ": " + p) == Put(d, k, Unquote(p))
  {
    EntryShape(k, p);
    StripNothing(k + ": " + p);
    StripKey(k);
    StripNothing(p);
  }

  predicate HasKey<V>(d: Dict<V>, k: string) { exists i :: 0 <= i < |d| && d[i].0 == k }

  lemma {:induction false} PutNew<V>(d: Dict<V>, k: string, v: V)
    requires !HasKey(d, k)
    ensures Put(d, k, v) == d + [(k, v)]
  {
    if d != [] {
      assert d[0].0 != k;
      assert forall i :: 0 <= i < |d[1..]| ==> d[1..][i] == d[i + 1];
      PutNew(d[1..], k, v);
      assert d == [d[0]] + d[1..];
    }
  }

  /** What the lines of a single-line dict read back as. */
  function Back(m: Dict<Value>): Dict<string> {
    if m == [] then []
    else Back(m[..|m| - 1]) + match m[|m| - 1].1 {
      case One(scalar) => if scalar == Str("") then [] else [(m[|m| - 1].0, ReadBack(scalar))]
      case _ => []
    }
  }

  ghost predicate AllSingleLine(m: Dict<Value>) {
    forall i :: 0 <= i < |m| && m[i].1.One? ==> SingleLine(m[i].1.scalar)
  }

  ghost predicate AllSurvive(m: Dict<Value>) {
    forall i :: 0 <= i < |m| && m[i].1.One? ==> Survives(m[i].1.scalar)
  }

  lemma {:induction false} BackKeys(m: Dict<Value>, k: string)
    requires HasKey(Back(m), k)
    ensures HasKey(m, k)
  {
    if m != [] {
      var n := |m| - 1;
      var i :| 0 <= i < |Back(m)| && Back(m)[i].0 == k;
      if i < |Back(m[..n])| {
        assert HasKey(Back(m[..n]), k);
        BackKeys(m[..n], k);
        var j :| 0 <= j < n && m[..n][j].0 == k;
        assert m[j].0 == k;
      } else {
        assert m[n].0 == k;
      }
    }
  }

  lemma FlatPrefix(m: Dict<Value>)
    requires Flat(m) && Spelled(m) && m != []
    ensures Flat(m[..|m| - 1]) && Spelled(m[..|m| - 1]) && !HasKey(m[..|m| - 1], m[|m| - 1].0)
    ensures AllSingleLine(m) ==> AllSingleLine(m[..|m| - 1])
  {
    assert forall i :: 0 <= i < |m| - 1 ==> m[..|m| - 1][i] == m[i];
  }

  /** A printed entry with a new key is read back behind what was read before. */
  lemma ReadsEntry(d: Dict<string>, k: string, v: Scalar)
    requires IsKey(k) && SingleLine(v) && v != Str("") && !HasKey(d, k)
    ensures ReadLine(d, k + ": " + Print(v)) == d + [(k, ReadBack(v))]
  {
    PrintShape(v);
    ReadsLine(d, k, Print(v));
    PutNew(d, k, ReadBack(v));
  }

  lemma {:induction false} LinesReadBack(m: Dict<Value>)
    requires Flat(m) && Spelled(m) && AllSingleLine(m)
    ensures ReadLines([], YamlLines(m)) == Back(m)
  {
    if m != [] {
      var n := |m| - 1;
      FlatPrefix(m);
      LinesReadBack(m[..n]);
      if Prints(m[n].1) {
        assert YamlLines(m) == YamlLines(m[..n]) + [m[n].0 + ": " + Print(m[n].1.scalar)];
        ReadLinesNext(YamlLines(m[..n]), m[n].0 + ": " + Print(m[n].1.scalar));
        if HasKey(Back(m[..n]), m[n].0) { BackKeys(m[..n], m[n].0); }
        ReadsEntry(Back(m[..n]), m[n].0, m[n].1.scalar);
      } else {
        assert YamlLines(m) == YamlLines(m[..n]);
      }
    }
  }

  lemma JoinIff<T>(a: seq<T>, x: T, b: seq<T>, y: T)
    requires |a| == |b|
    ensures a + [x] == b + [y] <==> a == b && x == y
  {
    assert (a + [x])[..|a|] == a && (b + [y])[..|b|] == b;
    assert (a + [x])[|a|] == x && (b + [y])[|b|] == y;
  }

  lemma AllSurviveSplit(m: Dict<Value>)
    requires m != []
    ensures AllSurvive(m) <==>
      AllSurvive(m[..|m| - 1]) && (m[|m| - 1].1.One? ==> Survives(m[|m| - 1].1.scalar))
  {
    var rest := m[..|m| - 1];
    assert forall i :: 0 <= i < |rest| ==> m[i] == rest[i];
  }

  /** The lines read back as intended exactly when every value survives. */
  lemma {:induction false} BackIffSurvive(m: Dict<Value>)
    requires AllSingleLine(m)
    ensures |Back(m)| == |Kept(m)| && (Back(m) == Kept(m) <==> AllSurvive(m))
  {
    if m != [] {
      var rest, last := m[..|m| - 1], m[|m| - 1];
      assert m == rest + [last];
      BackIffSurvive(rest);
      AllSurviveSplit(m);
      if Prints(last.1) {
        PrintShape(last.1.scalar);
        JoinIff(Back(rest), (last.0, ReadBack(last.1.scalar)), Kept(rest), (last.0, Shown(last.1.scalar)));
      } else {
        assert Back(m) == Back(rest) && Kept(m) == Kept(rest);
      }
    }
  }

  // ----- the text as a whole

  /** Lines a printed dict consists of. */
  ghost predicate FieldLines(lines: seq<string>) {
    forall i :: 0 <= i < |lines| ==> |lines[i]| >= 3 && OneLine(lines[i])
  }

  /** No line but the first is mistaken for the closing marker. */
  ghost predicate Unmarked(lines: seq<string>) {
    forall i :: 1 <= i < |lines| ==> !("---" <= lines[i])
  }

  /** One line for each kept field, and it begins like the key. */
  lemma {:induction false} YamlFieldLines(m: Dict<Value>)
    requires Flat(m) && Spelled(m) && AllSingleLine(m)
    ensures FieldLines(YamlLines(m)) && |YamlLines(m)| == |Kept(m)|
    ensures forall i :: 0 <= i < |Kept(m)| ==> ("---" <= YamlLines(m)[i] <==> "---" <= Kept(m)[i].0)
  {
    if m != [] {
      var n := |m| - 1;
      FlatPrefix(m);
      YamlFieldLines(m[..n]);
      if Prints(m[n].1) {
        PrintShape(m[n].1.scalar);
        EntryIsFieldLine(m[n].0, Print(m[n].1.scalar));
      }
    }
  }

  lemma EntryIsFieldLine(k: string, p: string)
    requires IsKey(k) && OneLine(p) && p != ""
    ensures FieldLines([k + ": " + p]) && ("---" <= k + ": " + p <==> "---" <= k)
  {
    var line := k + ": " + p;
    if |k| < 3 {
      assert line[|k|] == ':';
    } else {
      assert line[..3] == k[..3];
    }
    forall i | 0 <= i < |line| ensures !IsBreak(line[i]) {
      if i < |k| { assert line[i] == k[i]; } else if i >= |k| + 2 { assert line[i] == p[i - |k| - 2]; }
    }
  }

  lemma {:induction false} FirstBreakAt(a: string, rest: string)
    requires OneLine(a)
    ensures FirstBreak(a + "\n" + rest) == |a|
  {
    if a == "" {
      assert a + "\n" + rest == "\n" + rest;
    } else {
      assert (a + "\n" + rest)[1..] == a[1..] + "\n" + rest;
      FirstBreakAt(a[1..], rest);
    }
  }

  lemma {:induction false} FirstBreakNone(a: string)
    requires OneLine(a)
    ensures FirstBreak(a) == |a|
  {
    if a != "" { FirstBreakNone(a[1..]); }
  }

  lemma SplitOne(a: string, rest: string)
    requires OneLine(a)
    ensures SplitLines(a + "\n" + rest) == [a] + SplitLines(rest)
  {
    var s := a + "\n" + rest;
    FirstBreakAt(a, rest);
    assert s[..|a|] == a && s[|a| + 1..] == rest && s[|a|..][0] == '\n';
  }

  lemma {:induction false} SplitUndoesJoin(lines: seq<string>)
    requires FieldLines(lines)
    ensures SplitLines(Join(lines, "\n")) == lines
  {
    if |lines| == 1 {
      FirstBreakNone(lines[0]);
    } else if lines != [] {
      assert FieldLines(lines[1..]);
      SplitUndoesJoin(lines[1..]);
      SplitOne(lines[0], Join(lines[1..], "\n"));
      assert lines == [lines[0]] + lines[1..];
    }
  }

  function Later(c: Close, n: nat): Close { Close(c.at + n, c.len) }

  lemma CloseFurtherOn(t: string, c: Close)
    requires t != "" && !("\n---" <= t) && !("\r\n---" <= t) && FindClose(t[1..]) == Some(c)
    ensures FindClose(t) == Some(Later(c, 1))
  {
  }

  lemma PrefixTail(p: string, t: string)
    requires p != "" && t != ""
    ensures p <= t ==> p[1..] <= t[1..]
  {
  }

  lemma NoCloseHere(t: string)
    requires t != "" && (!IsBreak(t[0]) || (t[0] == '\n' && !("---" <= t[1..])))
    ensures !("\n---" <= t) && !("\r\n---" <= t)
  {
    assert "\n---"[1..] == "---";
    PrefixTail("\n---", t);
  }

  lemma OneFurther(x: char, s: string, c: Close)
    requires FindClose(s) == Some(c) && (!IsBreak(x) || (x == '\n' && !("---" <= s)))
    ensures FindClose([x] + s) == Some(Later(c, 1))
  {
    var t := [x] + s;
    assert t[1..] == s;
    NoCloseHere(t);
    CloseFurtherOn(t, c);
  }

  lemma {:induction false} CloseAfter(a: string, s: string, c: Close)
    requires OneLine(a) && FindClose(s) == Some(c)
    ensures FindClose(a + s) == Some(Later(c, |a|))
  {
    if a == "" {
      assert a + s == s;
    } else {
      var t := a[1..] + s;
      assert t[..|a| - 1] == a[1..] && a + s == [a[0]] + t;
      CloseAfter(a[1..], s, c);
      OneFurther(a[0], t, Later(c, |a| - 1));
    }
  }

  lemma ClosesLast(line: string, tail: string)
    requires OneLine(line)
    ensures FindClose(line + "\n---" + tail) == Some(Close(|line|, 4))
  {
    var close := "\n---" + tail;
    assert "\n---" <= close;
    CloseAfter(line, close, Close(0, 4));
    assert line + "\n---" + tail == line + close;
  }

  lemma ClosesThere(line: string, joined: string, tail: string)
    requires OneLine(line) && |joined| >= 3 && !("---" <= joined)
    requires FindClose(joined + "\n---" + tail) == Some(Close(|joined|, 4))
    ensures FindClose(line + "\n" + joined + "\n---" + tail) == Some(Close(|line| + 1 + |joined|, 4))
  {
    var s := joined + "\n---" + tail;
    assert s[..3] == joined[..3];
    OneFurther('\n', s, Close(|joined|, 4));
    CloseAfter(line, ['\n'] + s, Close(1 + |joined|, 4));
    Regroup(line, joined, tail);
  }

  /** The closing marker is found right after the lines. */
  lemma {:induction false} FindsClose(lines: seq<string>, tail: string)
    requires FieldLines(lines) && Unmarked(lines) && lines != []
    ensures FindClose(Join(lines, "\n") + "\n---" + tail) == Some(Close(|Join(lines, "\n")|, 4))
  {
    if |lines| == 1 {
      ClosesLast(lines[0], tail);
    } else {
      var rest := lines[1..];
      assert FieldLines(rest) && Unmarked(rest) && rest[0] == lines[1];
      FindsClose(rest, tail);
      JoinStarts(rest);
      ClosesThere(lines[0], Join(rest, "\n"), tail);
    }
  }

  lemma Regroup(a: string, b: string, tail: string)
    ensures (a + "\n" + b) + "\n---" + tail == a + ("\n" + (b + "\n---" + tail))
  {
  }

  lemma JoinStarts(lines: seq<string>)
    requires FieldLines(lines) && lines != []
    ensures |Join(lines, "\n")| >= 3 && Join(lines, "\n")[..3] == lines[0][..3]
  {
    assert lines[0] <= Join(lines, "\n");
  }

  lemma {:induction false} JoinSnoc(lines: seq<string>, x: string)
    requires lines != []
    ensures Join(lines + [x], "\n") == Join(lines, "\n") + "\n" + x
  {
    if |lines| == 1 {
      assert (lines + [x])[1..] == [x];
    } else {
      assert (lines + [x])[1..] == lines[1..] + [x];
      JoinSnoc(lines[1..], x);
    }
  }

  lemma RegroupAll(y: string, body: string)
    ensures ("---" + "\n" + (y + "\n" + "---")) + "\n\n" + body == "---\n" + (y + "\n---" + ("\n\n" + body))
  {
    assert y + "\n" + "---" == y + "\n---";
  }

  lemma RegroupNone(body: string)
    ensures ("---" + "\n" + "---") + "\n\n" + body == "---\n" + ("---\n\n" + body)
  {
  }

  lemma JoinAll(y: seq<string>)
    requires y != []
    ensures Join(["---"] + y + ["---"], "\n") == "---" + "\n" + (Join(y, "\n") + "\n" + "---")
  {
    var all := ["---"] + y + ["---"];
    assert all[1..] == y + ["---"] && all[0] == "---";
    JoinSnoc(y, "---");
  }

  /** The printed text: opening marker, lines, closing marker, blank line, body. */
  lemma SerializeShape(m: Dict<Value>, body: string)
    ensures YamlLines(m) != [] ==>
      Serialize(m, body) == "---\n" + (Join(YamlLines(m), "\n") + "\n---" + ("\n\n" + body))
    ensures YamlLines(m) == [] ==> Serialize(m, body) == "---\n" + ("---\n\n" + body)
  {
    var y := YamlLines(m);
    if y != [] {
      JoinAll(y);
      RegroupAll(Join(y, "\n"), body);
    } else {
      assert ["---"] + y + ["---"] == ["---", "---"] && ["---", "---"][1..] == ["---"];
      RegroupNone(body);
    }
  }

  lemma AfterOpenOf(s: string)
    ensures AfterOpen("---\n" + s) == Some(s)
  {
    var t := "---\n" + s;
    assert t[3] == '\n' && t[4..] == s && t[..4] == "---\n";
  }

  /** Where the closing marker stands right after these lines, they are what is read. */
  lemma ParseOfLines(y: seq<string>, tail: string)
    requires FieldLines(y) && Unmarked(y) && y != []
    ensures Parse("---\n" + (Join(y, "\n") + "\n---" + tail)) == Parsed(ReadLines([], y), StripStart(tail))
  {
    var s := Join(y, "\n") + "\n---" + tail;
    AfterOpenOf(s);
    FindsClose(y, tail);
    assert s[..|Join(y, "\n")|] == Join(y, "\n") && s[|Join(y, "\n")| + 4..] == tail;
    SplitUndoesJoin(y);
  }

  lemma LinesUnmarked(m: Dict<Value>)
    requires Flat(m) && Spelled(m) && AllSingleLine(m)
    ensures Unmarked(YamlLines(m)) <==> NoLateMarker(Kept(m))
  {
    YamlFieldLines(m);
    if !Unmarked(YamlLines(m)) {
      var i :| 1 <= i < |YamlLines(m)| && "---" <= YamlLines(m)[i];
      assert "---" <= Kept(m)[i].0;
    }
  }

  /** Reading back single-line fields gives what the lines say and the body without leading space. */
  lemma ParseOfSerialize(m: Dict<Value>, body: string)
    requires Flat(m) && Spelled(m) && AllSingleLine(m) && Kept(m) != [] && NoLateMarker(Kept(m))
    ensures Parse(Serialize(m, body)) == Parsed(Back(m), StripStart(body))
  {
    YamlFieldLines(m);
    LinesUnmarked(m);
    SerializeShape(m, body);
    ParseOfLines(YamlLines(m), "\n\n" + body);
    LinesReadBack(m);
    StripBreaks(body);
  }

  lemma {:induction false} JoinParts(a: seq<string>, b: seq<string>)
    requires a != [] && b != []
    ensures Join(a + b, "\n") == Join(a, "\n") + "\n" + Join(b, "\n")
  {
    if |a| == 1 {
      assert (a + b)[1..] == b;
    } else {
      assert (a + b)[1..] == a[1..] + b;
      JoinParts(a[1..], b);
    }
  }

  lemma {:induction false} ReadAtMost(lines: seq<string>)
    ensures |ReadLines([], lines)| <= |lines|
  {
    if lines != [] {
      var before, s := ReadLines([], lines[..|lines| - 1]), Strip(lines[|lines| - 1]);
      ReadAtMost(lines[..|lines| - 1]);
      var n := Find(s, ':');
      if s != "" && s[0] != '#' && n < |s| {
        PutAtMost(before, Strip(s[..n]), Unquote(Strip(s[n + 1..])));
      }
    }
  }

  lemma {:induction false} PutAtMost<V>(d: Dict<V>, k: string, v: V)
    ensures |Put(d, k, v)| <= |d| + 1
  {
    if d != [] { PutAtMost(d[1..], k, v); }
  }

  /** The first line after the first that looks like the closing marker. */
  lemma {:induction false} FirstMarked(y: seq<string>) returns (j: nat)
    requires !Unmarked(y)
    ensures 1 <= j < |y| && "---" <= y[j] && Unmarked(y[..j])
  {
    var i :| 1 <= i < |y| && "---" <= y[i];
    if Unmarked(y[..i]) {
      j := i;
    } else {
      j := FirstMarked(y[..i]);
      assert y[..i][..j] == y[..j];
    }
  }

  lemma CutAtMarker(head: string, rest: string, tail: string)
    requires "---" <= rest
    ensures (head + "\n" + rest) + "\n---" + tail == head + "\n---" + (rest + "\n---" + tail)[3..]
  {
    DashesStart(rest);
    assert rest == "---" + rest[3..];
  }

  lemma LinesCutAtMarker(y: seq<string>, j: nat, tail: string) returns (rest: string)
    requires 1 <= j < |y| && "---" <= y[j]
    ensures Join(y, "\n") + "\n---" + tail == Join(y[..j], "\n") + "\n---" + rest
  {
    var b := y[j..];
    assert y == y[..j] + b && b[0] == y[j];
    JoinParts(y[..j], b);
    assert b[0] <= Join(b, "\n");
    CutAtMarker(Join(y[..j], "\n"), Join(b, "\n"), tail);
    rest := (Join(b, "\n") + "\n---" + tail)[3..];
  }

  lemma MarkedLinesRead(y: seq<string>, tail: string)
    requires FieldLines(y) && !Unmarked(y)
    ensures |Parse("---\n" + (Join(y, "\n") + "\n---" + tail)).fields| < |y|
  {
    var j := FirstMarked(y);
    var rest := LinesCutAtMarker(y, j, tail);
    assert FieldLines(y[..j]);
    ParseOfLines(y[..j], rest);
    ReadAtMost(y[..j]);
  }

  /** A later line that looks like the closing marker is taken for it, and fields are lost. */
  lemma MarkerCutsShort(m: Dict<Value>, body: string)
    requires Flat(m) && Spelled(m) && AllSingleLine(m) && !NoLateMarker(Kept(m))
    ensures |Parse(Serialize(m, body)).fields| < |Kept(m)|
  {
    YamlFieldLines(m);
    LinesUnmarked(m);
    SerializeShape(m, body);
    MarkedLinesRead(YamlLines(m), "\n\n" + body);
  }

  /** Never more is read back than was printed. */
  lemma ReadsNoMore(m: Dict<Value>, body: string)
    requires Flat(m) && Spelled(m) && AllSingleLine(m) && Kept(m) != []
    ensures |Parse(Serialize(m, body)).fields| <= |Kept(m)|
  {
    if NoLateMarker(Kept(m)) {
      ParseOfSerialize(m, body);
      BackIffSurvive(m);
    } else {
      MarkerCutsShort(m, body);
    }
  }

  lemma StripBreaks(body: string)
    ensures StripStart("\n\n" + body) == StripStart(body)
  {
    assert ("\n\n" + body)[1..] == "\n" + body && ("\n" + body)[1..] == body;
  }

  lemma {:induction false} StripKeeps(s: string)
    ensures StripStart(s) == s <==> !StartsWithSpace(s)
    ensures |StripStart(s)| <= |s|
  {
    if StartsWithSpace(s) { StripKeeps(s[1..]); }
  }

  // ----- what cannot read back

  lemma {:induction false} SplitIsOneLine(s: string)
    ensures forall l :: l in SplitLines(s) ==> OneLine(l)
    decreases |s|
  {
    if s != "" {
      var n := FirstBreak(s);
      if n == |s| {
        assert s[..n] == s;
      } else {
        SplitIsOneLine(s[if "\r\n" <= s[n..] then n + 2 else n + 1..]);
      }
    }
  }

  lemma {:induction false} StripStartOneLine(s: string)
    requires OneLine(s)
    ensures OneLine(StripStart(s))
  {
    if s != "" { StripStartOneLine(s[1..]); }
  }

  lemma {:induction false} StripEndOneLine(s: string)
    requires OneLine(s)
    ensures OneLine(StripEnd(s))
  {
    if s != "" { StripEndOneLine(s[..|s| - 1]); }
  }

  lemma StripOneLine(s: string)
    requires OneLine(s)
    ensures OneLine(Strip(s))
  {
    StripStartOneLine(s);
    StripEndOneLine(StripStart(s));
  }

  ghost predicate ValuesOneLine(d: Dict<string>) {
    forall i :: 0 <= i < |d| ==> OneLine(d[i].1)
  }

  lemma {:induction false} PutOneLine(d: Dict<string>, k: string, v: string)
    requires ValuesOneLine(d) && OneLine(v)
    ensures ValuesOneLine(Put(d, k, v))
  {
    if d != [] {
      assert ValuesOneLine(d[1..]);
      PutOneLine(d[1..], k, v);
    }
  }

  lemma UnquoteOneLine(v: string)
    requires OneLine(v)
    ensures OneLine(Unquote(v))
  {
  }

  lemma ReadLineOneLine(d: Dict<string>, line: string)
    requires ValuesOneLine(d) && OneLine(line)
    ensures ValuesOneLine(ReadLine(d, line))
  {
    var s := Strip(line);
    StripOneLine(line);
    var n := Find(s, ':');
    if s != "" && s[0] != '#' && n < |s| {
      var v := s[n + 1..];
      assert OneLine(v);
      StripOneLine(v);
      UnquoteOneLine(Strip(v));
      PutOneLine(d, Strip(s[..n]), Unquote(Strip(v)));
    }
  }

  lemma {:induction false} ReadLinesOneLine(lines: seq<string>)
    requires forall l :: l in lines ==> OneLine(l)
    ensures ValuesOneLine(ReadLines([], lines))
  {
    if lines != [] {
      ReadLinesOneLine(lines[..|lines| - 1]);
      ReadLineOneLine(ReadLines([], lines[..|lines| - 1]), lines[|lines| - 1]);
    }
  }

  /** Nothing that is read holds a line break. */
  lemma ParsedValuesAreOneLine(content: string)
    ensures ValuesOneLine(Parse(content).fields)
  {
    var open := AfterOpen(content);
    if open.Some? && FindClose(open.value).Some? {
      CloseFits(open.value);
      var text := open.value[..FindClose(open.value).value.at];
      SplitIsOneLine(text);
      ReadLinesOneLine(SplitLines(text));
    }
  }

  lemma {:induction false} KeptHasBreak(m: Dict<Value>)
    requires !AllSingleLine(m)
    ensures !ValuesOneLine(Kept(m))
  {
    var i :| 0 <= i < |m| && m[i].1.One? && !SingleLine(m[i].1.scalar);
    var rest, last := m[..|m| - 1], m[|m| - 1];
    assert Kept(rest) <= Kept(m);
    if i < |m| - 1 {
      assert rest[i] == m[i];
      KeptHasBreak(rest);
      var k :| 0 <= k < |Kept(rest)| && !OneLine(Kept(rest)[k].1);
      assert Kept(m)[k] == Kept(rest)[k];
    } else {
      assert Kept(m)[|Kept(rest)|].1 == last.1.scalar.s;
    }
  }

  lemma DashesStart(s: string)
    requires "---" <= s
    ensures |s| >= 3 && s[0] == s[1] == s[2] == '-'
  {
    assert s[0] == "---"[0] && s[1] == "---"[1] && s[2] == "---"[2];
  }

  /** A closing marker that is found takes at least seven characters away: three before it and its own. */
  lemma CloseTakesAway(content: string, s: string)
    requires "---" <= s && |content| == |s| + 4
    ensures |TakeApart(content, s).body| != |s| - 5
  {
    DashesStart(s);
    CloseFits(s);
    if FindClose(s).Some? {
      var c := FindClose(s).value;
      assert c.at >= 3;
      StripKeeps(s[c.at + c.len..]);
    }
  }

  lemma EmptyBlock(body: string)
    ensures Parse("---\n" + ("---\n\n" + body)).body != body
  {
    var s := "---\n\n" + body;
    AfterOpenOf(s);
    assert "---" <= s;
    CloseTakesAway("---\n" + s, s);
  }

  /** The text of a dict with no kept field is never taken apart into that dict and its body. */
  lemma EmptyNeverReads(m: Dict<Value>, body: string)
    requires Flat(m) && Spelled(m) && AllSingleLine(m) && Kept(m) == []
    ensures Parse(Serialize(m, body)).body != body
  {
    YamlFieldLines(m);
    SerializeShape(m, body);
    EmptyBlock(body);
  }

  // What keys can be read.

  lemma {:induction false} StripEndShape(s: string)
    ensures StripEnd(s) <= s && (StripEnd(s) == "" || !IsSpace(StripEnd(s)[|StripEnd(s)| - 1]))
  {
    if s != "" { StripEndShape(s[..|s| - 1]); }
  }

  lemma {:induction false} StripStartShape(s: string)
    ensures StripStart(s) == "" || !IsSpace(StripStart(s)[0])
  {
    if s != "" { StripStartShape(s[1..]); }
  }

  /** The text before the colon of a line that is no comment, stripped. */
  lemma KeyOfLine(line: string)
    requires OneLine(line) && Strip(line) != "" && Strip(line)[0] != '#'
    ensures IsKey(Strip(Strip(line)[..Find(Strip(line), ':')]))
  {
    var s := Strip(line);
    StripOneLine(line);
    StripStartShape(line);
    StripEndShape(StripStart(line));
    var head := s[..Find(s, ':')];
    if head != "" {
      assert s[0] == StripStart(line)[0] && StripStart(head) == head;
      StripEndShape(head);
      assert forall c :: c in StripEnd(head) ==> c in head;
    }
  }

  ghost predicate AllKeys(d: Dict<string>) { forall i :: 0 <= i < |d| ==> IsKey(d[i].0) }

  lemma {:induction false} PutKeepsKeys(d: Dict<string>, k: string, v: string)
    requires AllKeys(d) && IsKey(k)
    ensures AllKeys(Put(d, k, v))
  {
    if d != [] {
      assert AllKeys(d[1..]);
      PutKeepsKeys(d[1..], k, v);
    }
  }

  lemma {:induction false} ReadLinesKeys(lines: seq<string>)
    requires forall l :: l in lines ==> OneLine(l)
    ensures AllKeys(ReadLines([], lines))
  {
    if lines != [] {
      var before, line := ReadLines([], lines[..|lines| - 1]), lines[|lines| - 1];
      ReadLinesKeys(lines[..|lines| - 1]);
      var s := Strip(line);
      var n := Find(s, ':');
      if s != "" && s[0] != '#' && n < |s| {
        KeyOfLine(line);
        PutKeepsKeys(before, Strip(s[..n]), Unquote(Strip(s[n + 1..])));
      }
    }
  }

  /** Whatever a file holds, a line can spell the keys that are read from it. */
  lemma ParsedKeysAreKeys(content: string)
    ensures AllKeys(Parse(content).fields)
  {
    var open := AfterOpen(content);
    if open.Some? && FindClose(open.value).Some? {
      CloseFits(open.value);
      var text := open.value[..FindClose(open.value).value.at];
      SplitIsOneLine(text);
      ReadLinesKeys(SplitLines(text));
    }
  }

  lemma {:induction false} KeptHasKey(m: Dict<Value>, i: nat)
    requires i < |m| && Prints(m[i].1)
    ensures HasKey(Kept(m), m[i].0)
  {
    var rest := m[..|m| - 1];
    if i < |rest| {
      KeptHasKey(rest, i);
      var k :| 0 <= k < |Kept(rest)| && Kept(rest)[k].0 == m[i].0;
      assert Kept(m)[k] == Kept(rest)[k];
    } else {
      assert Kept(m)[|Kept(rest)|].0 == m[i].0;
    }
  }

  /** What is printed under a key no line can spell is not read back. */
  lemma UnspelledNeverReads(m: Dict<Value>, body: string)
    requires !Spelled(m)
    ensures Parse(Serialize(m, body)).fields != Kept(m)
  {
    var i :| 0 <= i < |m| && Prints(m[i].1) && !IsKey(m[i].0);
    KeptHasKey(m, i);
    ParsedKeysAreKeys(Serialize(m, body));
  }

  /** Printing and reading back gives the kept fields and the body exactly when there is a field to keep, lines can
      spell the keys and the later ones do not look like the closing marker, no value holds a line break, a quote or
      a backslash, and the body does not begin with white space. */
  lemma RoundTripIff(m: Dict<Value>, body: string)
    requires Flat(m)
    ensures Parse(Serialize(m, body)) == Parsed(Kept(m), body)
       <==> Kept(m) != [] && Spelled(m) && NoLateMarker(Kept(m)) && AllSurvive(m) && !StartsWithSpace(body)
  {
    if !Spelled(m) {
      UnspelledNeverReads(m, body);
    } else if !AllSingleLine(m) {
      KeptHasBreak(m);
      ParsedValuesAreOneLine(Serialize(m, body));
      assert !AllSurvive(m);
    } else if Kept(m) == [] {
      EmptyNeverReads(m, body);
    } else if !NoLateMarker(Kept(m)) {
      MarkerCutsShort(m, body);
    } else {
      ParseOfSerialize(m, body);
      StripKeeps(body);
      BackIffSurvive(m);
    }
  }

  // ----- patching one field

  /** A dict of strings as the printer takes it. */
  function Strings(d: Dict<string>): Dict<Value> {
    seq(|d|, i requires 0 <= i < |d| => (d[i].0, One(Str(d[i].1))))
  }

  function Get<V>(d: Dict<V>, k: string): Option<V> {
    if d == [] then None else if d[0].0 == k then Some(d[0].1) else Get(d[1..], k)
  }

  /** The content after one field has been set and the file rewritten. */
  function Patch(content: string, k: string, v: Value): string {
    var r := Parse(content);
    Serialize(Put(Strings(r.fields), k, v), r.body)
  }

  /** A file that may be missing. */
  class FcopFile {
    var content: Option<string>

    constructor (content: Option<string>)
      ensures this.content == content
    {
      this.content := content;
    }

    /** patch_frontmatter_field; a missing file makes it raise. */
    method PatchField(k: string, v: Value) returns (ok: bool)
      modifies this
      ensures ok <==> old(content).Some?
      ensures content == if ok then Some(Patch(old(content).value, k, v)) else None
    {
      ok := content.Some?;
      if ok {
        var r := ParseFrontmatter(content.value);
        var text := SerializeFrontmatter(Put(Strings(r.fields), k, v), r.body);
        content := Some(text);
      }
    }
  }

  lemma {:induction false} KeptStrings(d: Dict<string>, k: string)
    requires forall i :: 0 <= i < |d| ==> d[i].0 != k
    ensures |Kept(Strings(d))| + Empties(d, k) == |d|
    ensures Empties(d, k) == 0 ==> Kept(Strings(d)) == d
  {
    if d != [] {
      var rest, first := d[1..], (d[0].0, One(Str(d[0].1)));
      assert forall i :: 0 <= i < |rest| ==> rest[i] == d[i + 1];
      StringsCons(d);
      KeptStrings(rest, k);
      KeptOne(d[0].0, One(Str(d[0].1)));
      KeptJoin([first], Strings(rest));
      assert d == [d[0]] + rest;
    }
  }

  lemma StringsCons(d: Dict<string>)
    requires d != []
    ensures Strings(d) == [(d[0].0, One(Str(d[0].1)))] + Strings(d[1..])
  {
  }

  ghost predicate DistinctKeys<V>(d: Dict<V>) {
    forall i, j :: 0 <= i < j < |d| ==> d[i].0 != d[j].0
  }

  /** Setting a present key changes its value in place. */
  lemma {:induction false} PutPresent<V>(d: Dict<V>, k: string, v: V)
    requires DistinctKeys(d) && HasKey(d, k)
    ensures |Put(d, k, v)| == |d|
    ensures forall i :: 0 <= i < |d| ==> Put(d, k, v)[i] == if d[i].0 == k then (k, v) else d[i]
  {
    var rest := d[1..];
    assert forall i :: 0 <= i < |rest| ==> rest[i] == d[i + 1];
    if d[0].0 != k {
      var i :| 0 <= i < |d| && d[i].0 == k;
      assert rest[i - 1].0 == k;
      PutPresent(rest, k, v);
    }
  }

  lemma PutFlat(d: Dict<Value>, k: string, v: Value)
    requires Flat(d) && !v.Many?
    ensures Flat(Put(d, k, v))
    ensures forall i :: 0 <= i < |Put(d, k, v)| ==> Put(d, k, v)[i] == (k, v) || Put(d, k, v)[i] in d
    ensures (k, v) in Put(d, k, v)
  {
    if HasKey(d, k) {
      PutPresent(d, k, v);
      var i :| 0 <= i < |d| && d[i].0 == k;
      assert Put(d, k, v)[i] == (k, v);
    } else {
      PutNew(d, k, v);
      assert Put(d, k, v)[|d|] == (k, v);
    }
  }

  lemma {:induction false} KeptJoin(a: Dict<Value>, b: Dict<Value>)
    ensures Kept(a + b) == Kept(a) + Kept(b)
  {
    if b == [] {
      assert a + b == a;
    } else {
      assert (a + b)[..|a + b| - 1] == a + b[..|b| - 1];
      KeptJoin(a, b[..|b| - 1]);
    }
  }

  /** The field of k, dropped when the value is empty. */
  function Field(k: string, v: Value): Dict<string> { Kept([(k, v)]) }

  function Without(d: Dict<string>, k: string): Dict<string> {
    if d == [] then [] else (if d[0].0 == k then [] else [d[0]]) + Without(d[1..], k)
  }

  /** The fields with an empty value under other keys: the printer drops them. */
  function Empties(d: Dict<string>, k: string): nat {
    if d == [] then 0 else Empties(d[1..], k) + if d[0].0 != k && d[0].1 == "" then 1 else 0
  }

  lemma {:induction false} NoEmpties(d: Dict<string>, k: string)
    ensures Empties(d, k) == 0 <==> forall i :: 0 <= i < |d| ==> d[i].0 == k || d[i].1 != ""
  {
    if d != [] {
      var rest := d[1..];
      NoEmpties(rest, k);
      assert forall i :: 0 <= i < |rest| ==> rest[i] == d[i + 1];
      assert forall i :: 0 < i < |d| ==> d[i] == rest[i - 1];
    }
  }

  lemma {:induction false} WithoutAbsent(d: Dict<string>, k: string)
    requires !HasKey(d, k)
    ensures Without(d, k) == d
  {
    if d != [] {
      assert d[0].0 != k && d == [d[0]] + d[1..];
      assert forall i :: 0 <= i < |d[1..]| ==> d[1..][i] == d[i + 1];
      WithoutAbsent(d[1..], k);
    }
  }

  lemma KeptOne(k: string, v: Value)
    ensures Field(k, v) == match v {
      case One(scalar) => if scalar == Str("") then [] else [(k, Shown(scalar))]
      case _ => []
    }
  {
    assert [(k, v)][..0] == [];
    assert Kept([]) == [];
  }

  /** What a patch is meant to leave: the field set, or gone if the value is empty. */
  function Intended(d: Dict<string>, k: string, v: Value): Dict<string> {
    if Field(k, v) == [] then Without(d, k) else Put(d, k, Field(k, v)[0].1)
  }

  /** The printer keeps exactly that, apart from other empty fields. */
  lemma {:induction false} KeptPut(d: Dict<string>, k: string, v: Value)
    requires DistinctKeys(d) && !v.Many?
    ensures |Kept(Put(Strings(d), k, v))| + Empties(d, k) == |Intended(d, k, v)|
    ensures Empties(d, k) == 0 ==> Kept(Put(Strings(d), k, v)) == Intended(d, k, v)
  {
    KeptOne(k, v);
    if d != [] {
      var rest := d[1..];
      assert forall i :: 0 <= i < |rest| ==> rest[i] == d[i + 1];
      assert Strings(d)[1..] == Strings(rest) && Strings(d)[0] == (d[0].0, One(Str(d[0].1)));
      KeptOne(d[0].0, One(Str(d[0].1)));
      if d[0].0 == k {
        assert !HasKey(rest, k);
        KeptJoin([(k, v)], Strings(rest));
        KeptStrings(rest, k);
        WithoutAbsent(rest, k);
      } else {
        KeptPut(rest, k, v);
        KeptJoin([Strings(d)[0]], Put(Strings(rest), k, v));
      }
    }
  }

  // What reading a file yields.

  lemma PutKeepsDistinct<V>(d: Dict<V>, k: string, v: V)
    requires DistinctKeys(d)
    ensures DistinctKeys(Put(d, k, v))
  {
    if HasKey(d, k) {
      PutPresent(d, k, v);
    } else {
      PutNew(d, k, v);
    }
  }

  lemma {:induction false} ReadLinesDistinct(lines: seq<string>)
    ensures DistinctKeys(ReadLines([], lines))
  {
    if lines != [] {
      var before, s := ReadLines([], lines[..|lines| - 1]), Strip(lines[|lines| - 1]);
      ReadLinesDistinct(lines[..|lines| - 1]);
      var n := Find(s, ':');
      if s != "" && s[0] != '#' && n < |s| {
        PutKeepsDistinct(before, Strip(s[..n]), Unquote(Strip(s[n + 1..])));
      }
    }
  }

  lemma ParsedKeysDistinct(content: string)
    ensures DistinctKeys(Parse(content).fields)
  {
    var open := AfterOpen(content);
    if open.Some? && FindClose(open.value).Some? {
      CloseFits(open.value);
      ReadLinesDistinct(SplitLines(open.value[..FindClose(open.value).value.at]));
    }
  }

  /** The patched dict of a file, as the printer gets it. */
  function PatchedDict(content: string, k: string, v: Value): Dict<Value> {
    Put(Strings(Parse(content).fields), k, v)
  }

  lemma PatchedFlat(content: string, k: string, v: Value)
    requires !v.Many?
    ensures
      var m := PatchedDict(content, k, v);
      && Flat(m) && (Spelled(m) <==> Prints(v) ==> IsKey(k))
      && (AllSingleLine(m) <==> v.One? ==> SingleLine(v.scalar))
  {
    var d := Parse(content).fields;
    ParsedKeysDistinct(content);
    ParsedKeysAreKeys(content);
    ParsedValuesAreOneLine(content);
    PutFlat(Strings(d), k, v);
    var m := PatchedDict(content, k, v);
    var i :| 0 <= i < |m| && m[i] == (k, v);
    assert AllSingleLine(m) && v.One? ==> SingleLine(m[i].1.scalar);
    assert Spelled(m) && Prints(v) ==> IsKey(m[i].0);
    forall j | 0 <= j < |m| && m[j] in Strings(d)
      ensures m[j].1.One? && SingleLine(m[j].1.scalar) && IsKey(m[j].0)
    {
      var n :| 0 <= n < |d| && Strings(d)[n] == m[j];
      assert OneLine(d[n].1) && IsKey(d[n].0);
    }
  }

  /** The fields that stay survive quoting. */
  ghost predicate OthersPlain(d: Dict<string>, k: string) {
    forall i :: 0 <= i < |d| ==> d[i].0 == k || PlainText(d[i].1)
  }

  lemma {:induction false} PutSurvives(d: Dict<string>, k: string, v: Value)
    requires DistinctKeys(d)
    ensures AllSurvive(Put(Strings(d), k, v)) <==> OthersPlain(d, k) && (v.One? ==> Survives(v.scalar))
  {
    var m := Put(Strings(d), k, v);
    if HasKey(Strings(d), k) {
      PutPresent(Strings(d), k, v);
      var n :| 0 <= n < |d| && Strings(d)[n].0 == k;
      assert m[n] == (k, v);
      assert forall i :: 0 <= i < |d| && d[i].0 != k ==> m[i] == (d[i].0, One(Str(d[i].1)));
    } else {
      PutNew(Strings(d), k, v);
      assert forall i :: 0 <= i < |d| ==> m[i] == Strings(d)[i] && d[i].0 == Strings(d)[i].0 != k;
      assert m[|d|] == (k, v);
    }
  }

  /** Dropping an empty field shows. */
  lemma EmptiesShow(content: string, k: string, v: Value)
    requires !v.Many? && Empties(Parse(content).fields, k) > 0
    ensures
      var r := Parse(content);
      Parse(Patch(content, k, v)) != Parsed(Intended(r.fields, k, v), r.body)
  {
    var d, body, m := Parse(content).fields, Parse(content).body, PatchedDict(content, k, v);
    PatchedFlat(content, k, v);
    ParsedKeysDistinct(content);
    KeptPut(d, k, v);
    KeptOne(k, v);
    if !Spelled(m) {
      ParsedKeysAreKeys(Serialize(m, body));
      PutHolds(d, k, Shown(v.scalar));
    } else if !AllSingleLine(m) {
      ParsedValuesAreOneLine(Serialize(m, body));
      PutHolds(d, k, v.scalar.s);
    } else if Kept(m) == [] {
      EmptyNeverReads(m, body);
    } else {
      ReadsNoMore(m, body);
    }
  }

  lemma {:induction false} PutHolds<V>(d: Dict<V>, k: string, v: V)
    ensures exists i :: 0 <= i < |Put(d, k, v)| && Put(d, k, v)[i] == (k, v)
  {
    if d == [] || d[0].0 == k {
      assert Put(d, k, v)[0] == (k, v);
    } else {
      PutHolds(d[1..], k, v);
      var i :| 0 <= i < |Put(d[1..], k, v)| && Put(d[1..], k, v)[i] == (k, v);
      assert Put(d, k, v)[i + 1] == (k, v);
    }
  }

  /** The other fields and the body of a file come through printing and reading. */
  ghost predicate Keeps(r: Parsed, k: string) {
    && !StartsWithSpace(r.body) && OthersPlain(r.fields, k)
    && forall i :: 0 <= i < |r.fields| ==> r.fields[i].0 == k || r.fields[i].1 != ""
  }

  /** The new value comes through, under its key. */
  predicate Carries(k: string, v: Value) { Prints(v) ==> IsKey(k) && Survives(v.scalar) }

  /** A patched file, however it was written, reads back as intended exactly when something is left to print and no
      later key of it looks like the closing marker, its other fields and its body come through, and so does the new
      value. */
  lemma PatchReadsIff(content: string, k: string, v: Value)
    requires !v.Many?
    ensures
      var r := Parse(content);
      var d := Intended(r.fields, k, v);
      Parse(Patch(content, k, v)) == Parsed(d, r.body) <==> Keeps(r, k) && Carries(k, v) && d != [] && NoLateMarker(d)
  {
    var r := Parse(content);
    NoEmpties(r.fields, k);
    if Empties(r.fields, k) > 0 {
      EmptiesShow(content, k, v);
    } else {
      PatchedFlat(content, k, v);
      ParsedKeysDistinct(content);
      KeptPut(r.fields, k, v);
      PutSurvives(r.fields, k, v);
      RoundTripIff(PatchedDict(content, k, v), r.body);
    }
  }

  /** Patching one field of a file and reading it back gives the same body and the same fields with that one set,
      exactly when the rest comes through, a line can spell the key, and the new value has no line break, quote or
      backslash. */
  lemma PatchSets(content: string, k: string, v: Scalar)
    requires v != Str("")
    ensures
      var r := Parse(content);
      var d := Put(r.fields, k, Shown(v));
      Parse(Patch(content, k, One(v))) == Parsed(d, r.body) <==>
        Keeps(r, k) && IsKey(k) && Survives(v) && NoLateMarker(d)
  {
    KeptOne(k, One(v));
    PatchReadsIff(content, k, One(v));
  }

  /** Patching with the empty string or with None removes the field; the file then reads back exactly when the rest
      comes through and another field is left. */
  lemma PatchRemoves(content: string, k: string, v: Value)
    requires v == Nothing || v == One(Str(""))
    ensures
      var r := Parse(content);
      var d := Without(r.fields, k);
      Parse(Patch(content, k, v)) == Parsed(d, r.body) <==> Keeps(r, k) && d != [] && NoLateMarker(d)
  {
    KeptOne(k, v);
    PatchReadsIff(content, k, v);
  }

  /** Setting a field changes what is found under its key and nothing else. */
  lemma {:induction false} PutGets<V>(d: Dict<V>, k: string, v: V, j: string)
    ensures Get(Put(d, k, v), j) == if j == k then Some(v) else Get(d, j)
  {
    if d != [] && d[0].0 != k {
      PutGets(d[1..], k, v, j);
      assert Put(d, k, v)[1..] == Put(d[1..], k, v);
    } else {
      assert Put(d, k, v)[1..] == if d == [] then [] else d[1..];
    }
  }

  lemma {:induction false} WithoutGets(d: Dict<string>, k: string, j: string)
    ensures Get(Without(d, k), j) == if j == k then None else Get(d, j)
  {
    if d != [] {
      WithoutGets(d[1..], k, j);
      if d[0].0 != k {
        assert Without(d, k)[1..] == Without(d[1..], k);
      } else {
        assert Without(d, k) == Without(d[1..], k);
      }
    }
  }
}
