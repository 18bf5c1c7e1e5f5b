/** Names of temporary files: the generator and the stale-file recogniser. */
module TempNames {
  import opened Text

  /** base.pid.stamp.rand, the name without its .tmp ending. */
  function Stem(base: string, pid: nat, stamp: nat, rand: string): string {
    base + "." + Dec(pid) + "." + Dec(stamp) + "." + rand
  }

  function TmpName(base: string, pid: nat, stamp: nat, rand: string): string {
    Stem(base, pid, stamp, rand) + ".tmp"
  }

  predicate IsHex(c: char) { IsDigit(c) || 'a' <= c <= 'f' }

  /** Eight lower-case hexadecimal digits. */
  predicate IsRand(s: string) { |s| == 8 && forall i :: 0 <= i < |s| ==> IsHex(s[i]) }

  /** s.split(".") */
  function Split(s: string): (parts: seq<string>)
    ensures |parts| > 0
  {
    if s == "" then [""]
    else if s[0] == '.' then [""] + Split(s[1..])
    else var rest := Split(s[1..]); [[s[0]] + rest[0]] + rest[1..]
  }

  predicate IsDigits(s: string) { s != "" && AllDigits(s) }

  predicate IsStaleTmp(name: string, base: string) {
    || name == base + ".tmp"
    || (base + "." <= name && EndsWith(name, ".tmp")
        && var parts := Split(Middle(name, base));
           |parts| == 3 && IsDigits(parts[0]) && IsDigits(parts[1]) && |parts[2]| >= 1)
  }

  lemma {:induction false} SplitPlain(s: string)
    requires '.' !in s
    ensures Split(s) == [s]
  {
    if s != "" {
      assert '.' !in s[1..];
      SplitPlain(s[1..]);
      assert [s[0]] + s[1..] == s;
    }
  }

  lemma {:induction false} SplitAt(a: string, rest: string)
    requires '.' !in a
    ensures Split(a + "." + rest) == [a] + Split(rest)
  {
    var s := a + "." + rest;
    if a == "" {
      assert s[1..] == rest;
    } else {
      SplitAt(a[1..], rest);
      assert s[1..] == a[1..] + "." + rest;
      assert [a[0]] + a[1..] == a;
    }
  }

  /** Three dotted parts. */
  function Dotted(a: string, b: string, c: string): string { a + "." + b + "." + c }

  lemma SplitDotted(a: string, b: string, c: string)
    requires '.' !in a && '.' !in b && '.' !in c
    ensures Split(Dotted(a, b, c)) == [a, b, c]
  {
    assert Dotted(a, b, c) == a + "." + (b + "." + c);
    SplitAt(a, b + "." + c);
    SplitAt(b, c);
    SplitPlain(c);
  }

  predicate NoDots(parts: seq<string>) {
    forall i :: 0 <= i < |parts| ==> '.' !in parts[i]
  }

  lemma {:induction false} SplitJoins(s: string)
    ensures Join(Split(s), ".") == s && NoDots(Split(s))
  {
    if s != "" {
      SplitJoins(s[1..]);
      var rest := Split(s[1..]);
      if s[0] == '.' {
        JoinMore("", rest);
      } else {
        JoinLonger(s[0], rest, ".");
      }
    }
  }

  lemma JoinMore(a: string, rest: seq<string>)
    requires |rest| > 0
    ensures Join([a] + rest, ".") == a + "." + Join(rest, ".")
  {
    assert ([a] + rest)[1..] == rest;
  }

  /** The text a name has between `base.` and `.tmp`. */
  function Middle(name: string, base: string): string {
    var lo, hi := |base| + 1, |name| - 4;
    if lo <= hi <= |name| then name[lo..hi] else ""
  }

  lemma ThreeParts(s: string)
    requires |Split(s)| == 3
    ensures s == Dotted(Split(s)[0], Split(s)[1], Split(s)[2]) && NoDots(Split(s))
  {
    var parts := Split(s);
    SplitJoins(s);
    JoinMore(parts[1], [parts[2]]);
    JoinMore(parts[0], [parts[1], parts[2]]);
    assert [parts[1]] + [parts[2]] == [parts[1], parts[2]] && [parts[0]] + [parts[1], parts[2]] == parts;
    assert Join([parts[2]], ".") == parts[2];
    assert s == parts[0] + "." + (parts[1] + "." + parts[2]);
  }

  /** name consists of base and three parts of the kinds the generator uses. */
  predicate BuiltFrom(name: string, base: string, pid: string, stamp: string, rand: string) {
    && IsDigits(pid) && IsDigits(stamp) && rand != "" && '.' !in rand
    && name == base + "." + Dotted(pid, stamp, rand) + ".tmp"
  }

  /** What the recogniser accepts, read as a name: the plain .tmp, or three parts of the right kinds. */
  lemma IsStaleTmpMeans(name: string, base: string)
    ensures IsStaleTmp(name, base) <==>
      name == base + ".tmp" || exists pid, stamp, rand :: BuiltFrom(name, base, pid, stamp, rand)
  {
    if IsStaleTmp(name, base) && name != base + ".tmp" {
      PartsOfStale(name, base);
    }
    forall pid, stamp, rand | BuiltFrom(name, base, pid, stamp, rand) ensures IsStaleTmp(name, base) {
      BuiltIsStale(name, base, pid, stamp, rand);
    }
  }

  lemma PartsOfStale(name: string, base: string)
    requires IsStaleTmp(name, base) && name != base + ".tmp"
    ensures exists pid, stamp, rand :: BuiltFrom(name, base, pid, stamp, rand)
  {
    var parts := Split(Middle(name, base));
    assert Split("") == [""];
    ThreeParts(Middle(name, base));
    var lo, hi := |base| + 1, |name| - 4;
    assert name == name[..lo] + name[lo..hi] + name[hi..];
    assert BuiltFrom(name, base, parts[0], parts[1], parts[2]);
  }

  lemma BuiltIsStale(name: string, base: string, pid: string, stamp: string, rand: string)
    requires BuiltFrom(name, base, pid, stamp, rand)
    ensures IsStaleTmp(name, base)
  {
    SplitDotted(pid, stamp, rand);
    assert Middle(name, base) == Dotted(pid, stamp, rand);
  }

  /** Text after the last delimiter is determined by the whole. */
  lemma CutRight(a: string, b: string, x: string, y: string)
    requires '.' !in x && '.' !in y && a + "." + x == b + "." + y
    ensures a == b && x == y
  {
    var s, t := a + "." + x, b + "." + y;
    assert s[|a|] == '.' && t[|b|] == '.';
    assert forall k :: |a| < k < |s| ==> s[k] == x[k - |a| - 1];
    assert forall k :: |b| < k < |t| ==> t[k] == y[k - |b| - 1];
    assert |a| == |b|;
    assert a == s[..|a|] && x == s[|a| + 1..] && b == t[..|b|] && y == t[|b| + 1..];
  }

  lemma DecHasNoDot(n: nat)
    ensures '.' !in Dec(n) && IsDigits(Dec(n)) && Value(Dec(n)) == n
  {
    DecValue(n);
  }

  lemma TmpNameDotted(base: string, pid: nat, stamp: nat, rand: string)
    ensures TmpName(base, pid, stamp, rand) == base + "." + Dotted(Dec(pid), Dec(stamp), rand) + ".tmp"
  {
    assert Stem(base, pid, stamp, rand) == base + "." + Dotted(Dec(pid), Dec(stamp), rand);
  }

  lemma PartsDetermined(a: string, p: string, s: string, r: string, a': string, p': string, s': string, r': string)
    requires '.' !in p + s + r && '.' !in p' + s' + r'
    requires a + "." + Dotted(p, s, r) + ".tmp" == a' + "." + Dotted(p', s', r') + ".tmp"
    ensures a == a' && p == p' && s == s' && r == r'
  {
    var n := a + "." + Dotted(p, s, r) + ".tmp";
    assert n[..|n| - 4] == a + "." + Dotted(p, s, r) == a' + "." + Dotted(p', s', r');
    assert a + "." + Dotted(p, s, r) == (a + "." + p + "." + s) + "." + r;
    assert a' + "." + Dotted(p', s', r') == (a' + "." + p' + "." + s') + "." + r';
    assert forall c :: c in p || c in s || c in r ==> c in p + s + r;
    assert forall c :: c in p' || c in s' || c in r' ==> c in p' + s' + r';
    CutRight(a + "." + p + "." + s, a' + "." + p' + "." + s', r, r');
    CutRight(a + "." + p, a' + "." + p', s, s');
    CutRight(a, a', p, p');
  }

  /** A generated name is taken for a stale one of exactly two targets: its own, and one called like its stem. */
  lemma RecogniserExact(base: string, pid: nat, stamp: nat, rand: string, other: string)
    requires IsRand(rand)
    ensures IsStaleTmp(TmpName(base, pid, stamp, rand), other) <==>
      other == base || other == Stem(base, pid, stamp, rand)
  {
    var name := TmpName(base, pid, stamp, rand);
    TmpNameDotted(base, pid, stamp, rand);
    DecHasNoDot(pid);
    DecHasNoDot(stamp);
    IsStaleTmpMeans(name, other);
    assert name == other + ".tmp" ==> other == name[..|name| - 4] == Stem(base, pid, stamp, rand);
    forall p, s, r | BuiltFrom(name, other, p, s, r) ensures other == base {
      PartsDetermined(base, Dec(pid), Dec(stamp), rand, other, p, s, r);
    }
    assert other == base ==> BuiltFrom(name, other, Dec(pid), Dec(stamp), rand);
  }

  /** Names made by different processes differ, whatever clock and generator say. */
  lemma PidsTellNamesApart(base: string, pid: nat, stamp: nat, rand: string, pid': nat, stamp': nat, rand': string)
    requires IsRand(rand) && IsRand(rand') && TmpName(base, pid, stamp, rand) == TmpName(base, pid', stamp', rand')
    ensures pid == pid' && stamp == stamp' && rand == rand'
  {
    TmpNameDotted(base, pid, stamp, rand);
    TmpNameDotted(base, pid', stamp', rand');
    DecHasNoDot(pid);
    DecHasNoDot(stamp);
    DecHasNoDot(pid');
    DecHasNoDot(stamp');
    PartsDetermined(base, Dec(pid), Dec(stamp), rand, base, Dec(pid'), Dec(stamp'), rand');
  }
}
