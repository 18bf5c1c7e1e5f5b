/** The plan of a migration: which single workspace moves up to the project root, and how task texts change. */
module MigrationPlan {
  import opened Text
  import opened FileTree
  import opened Sorting

  const WORKSPACE: Path := ["workspace"]
  const README: Path := ["workspace", "README.md"]
  const CONFIG: Path := ["fcop", "fcop.json"]
  const CONFIG_TMP: Path := ["fcop", "fcop.json.workspace-mode.tmp"]

  const PROTECTED: set<string> := {"fcop", ".codeflowmu", ".cursor", ".fcop", "AGENTS.md", "CLAUDE.md"}

  const ACTIVE_DIRS: seq<Path> := [
    ["fcop", "tasks"],
    ["fcop", "_lifecycle", "inbox"],
    ["fcop", "_lifecycle", "active"],
    ["fcop", "_lifecycle", "review"]
  ]

  /** What one run is given: the root's absolute name, the time stamp, and the JSON edit of the config. */
  datatype Layout = Layout(rootText: string, stamp: string, manifest: string, withRootMode: string -> Option<string>)

  /** One run: the tree it starts from and the accepted plan. */
  datatype Job = Job(before: Tree, layout: Layout, slug: string, names: seq<string>)

  datatype Backup = Backup(path: Path, copy: Path)

  datatype Refusal = NoWorkspace | ManyWorkspaces | Conflicts(names: seq<string>) | Unreadable

  datatype Planned = Refused(why: Refusal) | Plan(slug: string, names: seq<string>)

  datatype Outcome =
    | Rejected(why: Refusal)
    | NotStarted
    | Migrated(moved: nat, updated: nat)
    | ManifestLost
    | RolledBack(committed: bool)
    | RollbackBroken(committed: bool, caughtAt: nat)

  function Source(slug: string): Path { WORKSPACE + [slug] }

  function BackupRoot(l: Layout): Path { [".codeflowmu", "migrations", "workspace-root-" + l.stamp] }

  function TaskBackupRoot(l: Layout): Path { BackupRoot(l) + ["active-tasks"] }

  function BackupPath(l: Layout, i: nat, task: Path): Path
    requires task != []
  {
    TaskBackupRoot(l) + [Dec(i) + "-" + Name(task)]
  }

  /** Two backups never share a file, whatever the task files are called. */
  lemma BackupsDistinct(l: Layout, i: nat, p: Path, j: nat, q: Path)
    requires p != [] && q != [] && i != j
    ensures BackupPath(l, i, p) != BackupPath(l, j, q)
  {
    var a, b := BackupPath(l, i, p), BackupPath(l, j, q);
    DecValue(i);
    DecValue(j);
    if a == b {
      assert Dec(i) + "-" + Name(p) == a[|a| - 1] == b[|b| - 1] == Dec(j) + "-" + Name(q);
      CutUnique(Dec(i), Dec(j), Name(p), Name(q), '-');
      assert false;
    }
  }

  // ----- texts

  /** s.split(needle).join(with) */
  function ReplaceAll(s: string, needle: string, with: string): string
    requires needle != ""
  {
    if |s| < |needle| then s
    else if needle <= s then with + ReplaceAll(s[|needle|..], needle, with)
    else [s[0]] + ReplaceAll(s[1..], needle, with)
  }

  function RelativeNeedle(slug: string): string { "workspace/" + slug }

  function AbsoluteNeedle(rootText: string, slug: string): string { rootText + "/" + RelativeNeedle(slug) }

  function Rewrite(l: Layout, slug: string, text: string): string {
    ReplaceAll(ReplaceAll(text, RelativeNeedle(slug), "."), AbsoluteNeedle(l.rootText, slug), l.rootText)
  }

  ghost predicate Occurs(needle: string, s: string) {
    exists i :: 0 <= i <= |s| && needle <= s[i..]
  }

  ghost predicate NoneOccurs(needle: string, pieces: seq<string>) {
    forall i :: 0 <= i < |pieces| ==> !Occurs(needle, pieces[i])
  }

  /** The text splits at the needle into pieces free of it, and the result joins the same pieces. */
  lemma {:induction false} ReplaceSplitsAndJoins(s: string, needle: string, with: string) returns (pieces: seq<string>)
    requires needle != ""
    ensures pieces != [] && NoneOccurs(needle, pieces)
    ensures Join(pieces, needle) == s && Join(pieces, with) == ReplaceAll(s, needle, with)
  {
    if |s| < |needle| {
      pieces := [s];
    } else if needle <= s {
      var rest := ReplaceSplitsAndJoins(s[|needle|..], needle, with);
      pieces := [""] + rest;
      assert pieces[1..] == rest && s == needle + s[|needle|..];
      assert "" + needle == needle && "" + with == with;
    } else {
      var rest := ReplaceSplitsAndJoins(s[1..], needle, with);
      pieces := [[s[0]] + rest[0]] + rest[1..];
      assert pieces[1..] == rest[1..] && s == [s[0]] + s[1..];
      JoinLonger(s[0], rest, needle);
      JoinLonger(s[0], rest, with);
      LongerPiece(s, rest[0], needle);
    }
  }

  lemma LongerPiece(s: string, piece: string, needle: string)
    requires s != "" && piece <= s[1..] && !(needle <= s) && !Occurs(needle, piece)
    ensures !Occurs(needle, [s[0]] + piece)
  {
    var longer := [s[0]] + piece;
    assert longer <= s;
    forall i | 0 <= i <= |longer| ensures !(needle <= longer[i..]) {
      if i == 0 {
        assert longer[0..] == longer;
      } else {
        assert longer[i..] == piece[i - 1..];
      }
    }
  }

  lemma {:induction false} ReplacedPrefix(s: string, needle: string, w: string)
    requires needle != "" && '.' !in w
    ensures w <= ReplaceAll(s, needle, ".") ==> w <= s
  {
    var r := ReplaceAll(s, needle, ".");
    if w != "" && |s| >= |needle| {
      assert needle <= s ==> r[0] == '.' != w[0];
      ReplacedPrefix(s[1..], needle, w[1..]);
      assert !(needle <= s) && w <= r ==> w[0] == r[0] == s[0] && w[1..] <= r[1..] == ReplaceAll(s[1..], needle, ".");
    }
  }

  lemma {:induction false} NothingLeftToReplace(s: string, needle: string)
    requires needle != "" && '.' !in needle
    ensures !Occurs(needle, ReplaceAll(s, needle, "."))
  {
    var r := ReplaceAll(s, needle, ".");
    if |s| >= |needle| {
      var tail := if needle <= s then s[|needle|..] else s[1..];
      NothingLeftToReplace(tail, needle);
      ReplacedPrefix(s, needle, needle);
      assert needle <= s ==> r[0] == '.' != needle[0];
      forall i | 0 <= i <= |r| ensures !(needle <= r[i..]) {
        if i == 0 {
          assert r[0..] == r;
        } else {
          assert r[i..] == ReplaceAll(tail, needle, ".")[i - 1..];
        }
      }
    }
  }

  lemma {:induction false} ReplaceNothing(s: string, needle: string, with: string)
    requires needle != "" && !Occurs(needle, s)
    ensures ReplaceAll(s, needle, with) == s
  {
    if |s| >= |needle| {
      assert s == s[0..];
      forall i | 0 <= i <= |s[1..]| ensures !(needle <= s[1..][i..]) {
        assert s[1..][i..] == s[i + 1..];
      }
      ReplaceNothing(s[1..], needle, with);
    }
  }

  lemma TailOccurs(head: string, needle: string, s: string, i: nat)
    requires i <= |s|
    ensures head + needle <= s[i..] ==> Occurs(needle, s)
  {
    if head + needle <= s[i..] {
      var k := i + |head|;
      assert needle == (head + needle)[|head|..] == s[k..k + |needle|];
      assert needle <= s[k..];
    }
  }

  /** Once the relative prefix is gone the absolute one is gone too, unless the slug itself has a dot. */
  lemma IdleWithoutDot(l: Layout, slug: string, text: string)
    requires '.' !in slug
    ensures Rewrite(l, slug, text) == ReplaceAll(text, RelativeNeedle(slug), ".")
    ensures !Occurs(RelativeNeedle(slug), Rewrite(l, slug, text))
  {
    var rel, abs := RelativeNeedle(slug), AbsoluteNeedle(l.rootText, slug);
    var once := ReplaceAll(text, rel, ".");
    NothingLeftToReplace(text, rel);
    forall i | 0 <= i <= |once| ensures !(abs <= once[i..]) {
      TailOccurs(l.rootText + "/", rel, once, i);
    }
    ReplaceNothing(once, abs, l.rootText);
  }

  // A needle with a dot.

  /** The index of the first dot, or the length. */
  function FirstDot(s: string): (n: nat)
    ensures n <= |s| && '.' !in s[..n] && (n < |s| ==> s[n] == '.')
  {
    if s == "" || s[0] == '.' then 0
    else
      var n := 1 + FirstDot(s[1..]);
      assert s[..n] == [s[0]] + s[1..][..n - 1];
      n
  }

  lemma {:induction false} DotsStay(s: string, needle: string)
    requires '.' in needle
    ensures '.' in s <==> '.' in ReplaceAll(s, ".", needle)
    ensures '.' !in s ==> ReplaceAll(s, ".", needle) == s
    ensures '.' in s ==> FirstDot(ReplaceAll(s, ".", needle)) == FirstDot(s) + FirstDot(needle)
  {
    if s != "" {
      DotsStay(s[1..], needle);
      if s[0] == '.' {
        FirstDotIn(needle, ReplaceAll(s[1..], ".", needle));
      } else {
        assert s == [s[0]] + s[1..];
      }
    }
  }

  lemma {:induction false} FirstDotAt(s: string, n: nat)
    requires n < |s| && s[n] == '.' && '.' !in s[..n]
    ensures FirstDot(s) == n
  {
    if n > 0 {
      assert s[..n] == [s[0]] + s[1..][..n - 1];
      FirstDotAt(s[1..], n - 1);
    }
  }

  lemma FirstDotIn(a: string, b: string)
    requires '.' in a
    ensures FirstDot(a + b) == FirstDot(a)
  {
    var n := FirstDot(a);
    assert a == a[..n] + a[n..];
    assert (a + b)[..n] == a[..n];
    FirstDotAt(a + b, n);
  }

  /** Putting the needle for every dot makes a text whose replacement gives the dots back: the replacement of a needle
      with a dot can leave anything. */
  lemma {:induction false} DotsComeBack(s: string, needle: string)
    requires '.' in needle
    ensures ReplaceAll(ReplaceAll(s, ".", needle), needle, ".") == s
  {
    if s != "" {
      var t := ReplaceAll(s, ".", needle);
      var rest := ReplaceAll(s[1..], ".", needle);
      DotsComeBack(s[1..], needle);
      if s[0] == '.' {
        assert t == needle + rest && t[|needle|..] == rest;
        assert s == "." + s[1..];
      } else {
        assert t == [s[0]] + rest && t[1..] == rest && s == [s[0]] + s[1..];
        NeedleLater(s, needle);
      }
    }
  }

  lemma DotOfPrefix(a: string, s: string)
    requires '.' in a
    ensures a <= s ==> FirstDot(s) <= FirstDot(a)
  {
    if a <= s {
      assert s[FirstDot(a)] == '.';
    }
  }

  lemma NeedleLater(s: string, needle: string)
    requires '.' in needle && s != "" && s[0] != '.'
    ensures !(needle <= ReplaceAll(s, ".", needle))
  {
    var t := ReplaceAll(s, ".", needle);
    DotsStay(s, needle);
    DotOfPrefix(needle, t);
  }

  lemma Itself(s: string)
    ensures Occurs(s, s)
  {
    assert s[0..] == s;
  }

  /** With a dot in the slug some text is left with the absolute path, which only the second replacement takes out,
      and some text keeps the relative path to the end. */
  lemma DotLeavesPaths(l: Layout, slug: string) returns (absolute: string, relative: string)
    requires '.' in slug
    ensures ReplaceAll(absolute, RelativeNeedle(slug), ".") == AbsoluteNeedle(l.rootText, slug)
    ensures Rewrite(l, slug, absolute) == l.rootText
    ensures ReplaceAll(relative, RelativeNeedle(slug), ".") == Rewrite(l, slug, relative) == RelativeNeedle(slug)
  {
    var rel, abs := RelativeNeedle(slug), AbsoluteNeedle(l.rootText, slug);
    DotInNeedle(slug);
    absolute, relative := ReplaceAll(abs, ".", rel), ReplaceAll(rel, ".", rel);
    DotsComeBack(abs, rel);
    DotsComeBack(rel, rel);
    ReplaceWhole(abs, l.rootText);
  }

  lemma DotInNeedle(slug: string)
    requires '.' in slug
    ensures '.' in RelativeNeedle(slug)
  {
    var rel := RelativeNeedle(slug);
    assert rel[|rel| - |slug|..] == slug;
  }

  lemma ReplaceWhole(s: string, with: string)
    requires s != ""
    ensures ReplaceAll(s, s, with) == with
  {
    assert s[|s|..] == "" && with + "" == with;
  }

  /** Replacing the absolute path after the relative one is idle on all texts, and no relative path is left by the
      first replacement or by both, exactly when the slug has no dot. */
  lemma AbsoluteReplacementIdleIff(l: Layout, slug: string)
    ensures (forall text :: Rewrite(l, slug, text) == ReplaceAll(text, RelativeNeedle(slug), ".")) <==> '.' !in slug
    ensures (forall text :: !Occurs(RelativeNeedle(slug), ReplaceAll(text, RelativeNeedle(slug), "."))) <==>
      '.' !in slug
    ensures (forall text :: !Occurs(RelativeNeedle(slug), Rewrite(l, slug, text))) <==> '.' !in slug
  {
    var rel := RelativeNeedle(slug);
    if '.' !in slug {
      forall text
        ensures Rewrite(l, slug, text) == ReplaceAll(text, rel, ".") && !Occurs(rel, Rewrite(l, slug, text))
      {
        IdleWithoutDot(l, slug, text);
      }
    } else {
      var absolute, relative := DotLeavesPaths(l, slug);
      assert |Rewrite(l, slug, absolute)| < |ReplaceAll(absolute, rel, ".")|;
      Itself(rel);
      assert Occurs(rel, Rewrite(l, slug, relative)) && Occurs(rel, ReplaceAll(relative, rel, "."));
    }
  }

  /** With one dot in the slug, as in a.b, the path is put together again out of what stands around one that is
      replaced. */
  lemma PathReturns(x: string, y: string)
    requires '.' !in x && '.' !in y
    ensures
      var needle := RelativeNeedle(x + "." + y);
      ReplaceAll(RelativeNeedle(x) + needle + y, needle, ".") == needle
  {
    assert RelativeNeedle(x + "." + y) == RelativeNeedle(x) + "." + y;
    ReturnsAround(RelativeNeedle(x), y);
  }

  lemma ReturnsAround(a: string, b: string)
    requires '.' !in a && '.' !in b
    ensures
      var needle := a + "." + b;
      ReplaceAll(a + needle + b, needle, ".") == needle
  {
    var needle := a + "." + b;
    assert needle[|a|] == '.';
    DotsComeBack(needle, needle);
    DotPut(a, b, needle);
  }

  lemma {:induction false} DotPut(a: string, b: string, needle: string)
    requires '.' !in a && '.' !in b && '.' in needle
    ensures ReplaceAll(a + "." + b, ".", needle) == a + needle + b
  {
    var s := a + "." + b;
    if a == "" {
      assert s == "." + b && s[1..] == b && a + needle + b == needle + b;
      DotsStay(b, needle);
    } else {
      assert s[0] == a[0] && s[1..] == a[1..] + "." + b;
      DotPut(a[1..], b, needle);
      assert !("." <= s);
      assert a + needle + b == [a[0]] + (a[1..] + needle + b);
    }
  }

  // ----- planning

  predicate IsSlug(t: Tree, n: string) {
    !("." <= n) && IsDir(t, WORKSPACE + [n])
  }

  predicate Clashes(t: Tree, n: string) { [n] in t || n in PROTECTED }

  /** The plan is sound: one workspace, all its entries, and a free unprotected place for each. */
  ghost predicate Sound(j: Job) {
    && WellFormed(j.before)
    && IsSlug(j.before, j.slug)
    && (forall n :: IsSlug(j.before, n) ==> n == j.slug)
    && NoRepeat(j.names)
    && (forall n :: n in j.names <==> Source(j.slug) + [n] in j.before)
    && (forall n :: n in j.names ==> !Clashes(j.before, n))
  }

  function SlugIn(t: Tree): string -> bool { (n: string) => IsSlug(t, n) }

  function ClashIn(t: Tree): string -> bool { (n: string) => Clashes(t, n) }

  lemma {:induction false} WhereListed(names: seq<string>, f: string -> bool)
    requires NoRepeat(names)
    ensures NoRepeat(Where(names, f))
  {
    if names != [] {
      var rest, last := names[..|names| - 1], names[|names| - 1];
      var kept := Where(rest, f);
      WhereListed(rest, f);
      WhereIn(rest, f);
      forall i | 0 <= i < |kept| ensures kept[i] != last {
        assert kept[i] in rest;
      }
      assert Where(names, f) == if f(last) then kept + [last] else kept;
    }
  }

  method PlanMigration(disk: Disk, l: Layout) returns (plan: Planned)
    requires WellFormed(disk.tree)
    modifies disk`clock
    ensures old(disk.clock) <= disk.clock
    ensures plan.Plan? ==> Sound(Job(disk.tree, l, plan.slug, plan.names))
    ensures plan == Refused(NoWorkspace) ==> forall n :: !IsSlug(disk.tree, n)
    ensures plan == Refused(ManyWorkspaces) ==> exists n, m :: n != m && IsSlug(disk.tree, n) && IsSlug(disk.tree, m)
    ensures plan.Refused? && plan.why.Conflicts? ==>
      exists slug :: IsSlug(disk.tree, slug)
        && (forall n :: n in plan.why.names <==> Source(slug) + [n] in disk.tree && Clashes(disk.tree, n))
        && plan.why.names != []
    ensures plan == Refused(Unreadable) ==> disk.FaultSince(old(disk.clock))
  {
    var t := disk.tree;
    var slugs: seq<string> := [];
    if IsDir(t, WORKSPACE) {
      var entries := disk.ReadDir(WORKSPACE);
      if entries.None? {
        return Refused(Unreadable);
      }
      slugs := Where(entries.value, SlugIn(t));
      WhereHolds(entries.value, SlugIn(t));
      WhereListed(entries.value, SlugIn(t));
    } else {
      forall n ensures !IsSlug(t, n) {
        assert Parent(WORKSPACE + [n]) == WORKSPACE;
      }
    }
    assert forall n :: n in slugs <==> IsSlug(t, n);
    if |slugs| == 0 {
      return Refused(NoWorkspace);
    }
    if |slugs| > 1 {
      assert slugs[0] != slugs[1] && IsSlug(t, slugs[0]) && IsSlug(t, slugs[1]);
      return Refused(ManyWorkspaces);
    }
    var slug := slugs[0];
    assert slugs == [slug];
    var names := disk.ReadDir(Source(slug));
    if names.None? {
      return Refused(Unreadable);
    }
    var conflicts := Where(names.value, ClashIn(t));
    WhereHolds(names.value, ClashIn(t));
    if conflicts != [] {
      return Refused(Conflicts(conflicts));
    }
    forall n | n in names.value ensures !Clashes(t, n) {
      assert n !in conflicts;
    }
    plan := Plan(slug, names.value);
  }
}
