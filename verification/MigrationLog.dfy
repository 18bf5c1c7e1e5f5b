/** Where a migration stands: the tree its undo log answers for, and what each step does to it. */
module MigrationLog {
  import opened Text
  import opened FileTree
  import opened MigrationPlan

  // ----- where things stand

  predicate InActiveDir(p: Path) {
    p != [] && Parent(p) in ACTIVE_DIRS && "TASK-" <= Name(p) && EndsWith(Name(p), ".md")
  }

  predicate IsActiveTask(t: Tree, p: Path) { InActiveDir(p) && IsFile(t, p) }

  predicate Scratch(l: Layout, p: Path) {
    p != [] && (p <= BackupRoot(l) || BackupRoot(l) <= p)
  }

  /** Paths the undo log does not answer for: scratch files and, once the config has been switched,
      the config and what is left of the workspace directory itself. */
  predicate Exempt(j: Job, late: bool, p: Path) {
    || Scratch(j.layout, p) || p == CONFIG_TMP
    || (late && (p == CONFIG || p == WORKSPACE || p == Source(j.slug) || (README <= p && !(Source(j.slug) <= p))))
  }

  /** The initial tree with the named workspace entries carried to the root. */
  function Placed(j: Job, moved: seq<string>, p: Path): Option<Node> {
    if p != [] && p[0] in moved then At(j.before, Source(j.slug) + p)
    else if |p| > 2 && Source(j.slug) <= p && p[2] in moved then None
    else At(j.before, p)
  }

  ghost predicate Stands(j: Job, t: Tree, moved: seq<string>, touched: set<Path>, late: bool) {
    forall p :: !Exempt(j, late, p) && p !in touched ==> At(t, p) == Placed(j, moved, p)
  }

  function Paths(log: seq<Backup>): set<Path> { set b | b in log :: b.path }

  ghost predicate BackedUp(j: Job, t: Tree, log: seq<Backup>) {
    forall i :: 0 <= i < |log| ==>
      && IsActiveTask(j.before, log[i].path) && IsFile(t, log[i].path)
      && log[i].copy == BackupPath(j.layout, i, log[i].path)
      && At(t, log[i].copy) == At(j.before, log[i].path)
  }

  /** The config text with the mode switched, if the config can be read at all. */
  function SwitchedConfig(j: Job): Option<Node> {
    if !IsFile(j.before, CONFIG) then None
    else
      match j.layout.withRootMode(j.before[CONFIG].text)
      case None => None
      case Some(text) => Some(File(text))
  }

  predicate NoFile(t: Tree, p: Path) { !IsFile(t, p) }

  /** What every step of the try block keeps, and all the catch block relies on. */
  ghost predicate Recoverable(j: Job, t: Tree, moved: seq<string>, log: seq<Backup>, late: bool) {
    && Sound(j)
    && moved <= j.names
    && Stands(j, t, moved, Paths(log), late)
    && BackedUp(j, t, log)
    && NoFile(t, WORKSPACE) && NoFile(t, Source(j.slug))
    && (late ==> At(t, CONFIG) == SwitchedConfig(j) != None)
  }

  lemma NamesAreFree(j: Job, n: string)
    requires Sound(j) && n in j.names
    ensures n != "workspace" && n != "fcop" && n != ".codeflowmu"
    ensures forall p :: [n] <= p ==> p !in j.before
  {
    assert WORKSPACE in j.before by {
      assert Parent(Source(j.slug)) == WORKSPACE;
    }
    forall p | [n] <= p ensures p !in j.before {
      if p in j.before { AncestorsExist(j.before, [n], p); }
    }
  }

  lemma PrefixMembers(some: seq<string>, n: string, all: seq<string>)
    requires some + [n] <= all && NoRepeat(all)
    ensures n in all && n !in some && forall m :: m in some ==> m in all
  {
    assert all[|some|] == n;
    forall m | m in some ensures m in all && m != n {
      var i :| 0 <= i < |some| && some[i] == m;
      assert all[i] == m;
    }
  }

  lemma ThirdSegment(slug: string, n: string, p: Path)
    ensures Source(slug) + [n] <= p <==> |p| > 2 && Source(slug) <= p && p[2] == n
  {
    if |p| > 2 { assert p[..3] == p[..2] + [p[2]]; }
  }

  /** Moving one more entry extends `moved`... */
  lemma MoveStep(j: Job, t: Tree, moved: seq<string>, late: bool, n: string)
    requires Sound(j) && Stands(j, t, moved, {}, late) && moved + [n] <= j.names
    ensures Apart(Source(j.slug) + [n], [n])
    ensures Stands(j, Renamed(t, Source(j.slug) + [n], [n]), moved + [n], {}, late)
  {
    PrefixMembers(moved, n, j.names);
    NamesAreFree(j, n);
    var from := Source(j.slug) + [n];
    assert from[0] == "workspace" && from[2] == n;
    forall p | !Exempt(j, late, p)
      ensures At(Renamed(t, from, [n]), p) == Placed(j, moved + [n], p)
    {
      MovedAt(j, t, moved, late, n, p);
    }
  }

  lemma MovedAt(j: Job, t: Tree, moved: seq<string>, late: bool, n: string, p: Path)
    requires Stands(j, t, moved, {}, late)
    requires n !in moved && "workspace" !in moved + [n] && !Exempt(j, late, p)
    ensures At(Renamed(t, Source(j.slug) + [n], [n]), p) == Placed(j, moved + [n], p)
  {
    var from := Source(j.slug) + [n];
    assert from[0] == "workspace" && from[2] == n;
    RenamedAt(t, from, [n], p);
    if [n] <= p {
      var q := Source(j.slug) + p;
      assert Rebase(p, [n], from) == q;
      assert q[2] == n && Source(j.slug) <= q && q[0] == "workspace";
      assert !Exempt(j, late, q);
    } else {
      assert p != [] ==> p[0] != n;
      if from <= p {
        assert p[0] == "workspace" && p[2] == n;
      } else {
        ThirdSegment(j.slug, n, p);
      }
    }
  }

  /** ... and undoing it takes that entry back. */
  lemma UnmoveStep(j: Job, t: Tree, moved: seq<string>, late: bool, n: string)
    requires Sound(j) && Stands(j, t, moved + [n], {}, late) && moved + [n] <= j.names
    ensures Apart([n], Source(j.slug) + [n])
    ensures Stands(j, Renamed(t, [n], Source(j.slug) + [n]), moved, {}, late)
  {
    PrefixMembers(moved, n, j.names);
    NamesAreFree(j, n);
    var to := Source(j.slug) + [n];
    assert to[0] == "workspace" && to[2] == n;
    forall p | !Exempt(j, late, p)
      ensures At(Renamed(t, [n], to), p) == Placed(j, moved, p)
    {
      UnmovedAt(j, t, moved, late, n, p);
    }
  }

  lemma UnmovedAt(j: Job, t: Tree, moved: seq<string>, late: bool, n: string, p: Path)
    requires Stands(j, t, moved + [n], {}, late)
    requires n !in moved && "workspace" !in moved + [n] && !Exempt(j, late, p)
    requires n != "fcop" && n != ".codeflowmu"
    requires forall q :: [n] <= q ==> q !in j.before
    ensures At(Renamed(t, [n], Source(j.slug) + [n]), p) == Placed(j, moved, p)
  {
    var to := Source(j.slug) + [n];
    assert to[0] == "workspace" && to[2] == n;
    RenamedAt(t, [n], to, p);
    if to <= p {
      var q := p[2..];
      assert Rebase(p, to, [n]) == q && Source(j.slug) + q == p;
      assert q[0] == n;
      assert !Exempt(j, late, q);
      assert p[0] == "workspace" && p[2] == n;
    } else {
      ThirdSegment(j.slug, n, p);
      assert p != [] && p[0] == n ==> [n] <= p;
    }
  }

  /** The protocol directory is never moved: task files not yet in the log are as they were. */
  lemma ProtocolStands(j: Job, t: Tree, moved: seq<string>, touched: set<Path>, late: bool, p: Path)
    requires Sound(j) && moved <= j.names && Stands(j, t, moved, touched, late)
    requires p != [] && p[0] == "fcop" && p != CONFIG_TMP && (late ==> p != CONFIG) && p !in touched
    ensures At(t, p) == At(j.before, p) == Placed(j, moved, p)
  {
    assert !Exempt(j, late, p);
    assert "fcop" !in moved by {
      if "fcop" in moved {
        assert "fcop" in j.names;
        assert Clashes(j.before, "fcop");
        assert false;
      }
    }
  }

  lemma InActiveDirIs(p: Path)
    requires InActiveDir(p)
    ensures p[0] == "fcop" && p != CONFIG && p != CONFIG_TMP
    ensures Parent(p) != [] && Parent(p)[0] == "fcop" && Parent(p) != CONFIG && Parent(p) != CONFIG_TMP
    ensures Name(p) != "fcop.json"
  {
    assert Parent(p)[0] == "fcop";
    assert Name(p)[0] == 'T';
  }

  /** Restoring a backup can only fail through a new fault. */
  lemma CanRestore(j: Job, t: Tree, moved: seq<string>, touched: set<Path>, log: seq<Backup>, late: bool, i: nat)
    requires Sound(j) && moved <= j.names && Stands(j, t, moved, touched, late) && BackedUp(j, t, log)
    requires i < |log| && forall p :: p in touched ==> IsFile(j.before, p)
    ensures IsFile(t, log[i].copy) && CanWrite(t, log[i].path)
  {
    var p := log[i].path;
    InActiveDirIs(p);
    assert IsDir(j.before, Parent(p));
    ProtocolStands(j, t, moved, touched, late, Parent(p));
  }

  lemma WorkspaceStays(j: Job, t: Tree, moved: seq<string>, n: string)
    requires Sound(j) && moved + [n] <= j.names
    ensures At(Renamed(t, Source(j.slug) + [n], [n]), CONFIG_TMP) == At(t, CONFIG_TMP)
    ensures At(Renamed(t, Source(j.slug) + [n], [n]), WORKSPACE) == At(t, WORKSPACE)
    ensures At(Renamed(t, Source(j.slug) + [n], [n]), Source(j.slug)) == At(t, Source(j.slug))
    ensures At(Renamed(t, [n], Source(j.slug) + [n]), CONFIG) == At(t, CONFIG)
    ensures At(Renamed(t, [n], Source(j.slug) + [n]), WORKSPACE) == At(t, WORKSPACE)
    ensures At(Renamed(t, [n], Source(j.slug) + [n]), Source(j.slug)) == At(t, Source(j.slug))
  {
    PrefixMembers(moved, n, j.names);
    NamesAreFree(j, n);
    RenamedAt(t, Source(j.slug) + [n], [n], CONFIG_TMP);
    RenamedAt(t, Source(j.slug) + [n], [n], WORKSPACE);
    RenamedAt(t, Source(j.slug) + [n], [n], Source(j.slug));
    RenamedAt(t, [n], Source(j.slug) + [n], CONFIG);
    RenamedAt(t, [n], Source(j.slug) + [n], WORKSPACE);
    RenamedAt(t, [n], Source(j.slug) + [n], Source(j.slug));
  }

  /** Writing a logged or exempt file that is no backup copy keeps everything recoverable. */
  lemma WriteKeeps(j: Job, t: Tree, r: Tree, moved: seq<string>, log: seq<Backup>, late: bool, p: Path)
    requires Recoverable(j, t, moved, log, late) && OneFileWritten(t, r, p)
    requires p in Paths(log) || Exempt(j, late, p)
    requires forall b :: b in log ==> p != b.copy
    requires p != WORKSPACE && p != Source(j.slug) && p != CONFIG
    ensures Recoverable(j, r, moved, log, late)
  {
    forall i | 0 <= i < |log| ensures IsFile(r, log[i].path) && At(r, log[i].copy) == At(t, log[i].copy) {
      assert log[i] in log;
    }
  }

  lemma CopyIsScratch(l: Layout, i: nat, p: Path)
    requires p != []
    ensures Scratch(l, BackupPath(l, i, p)) && BackupPath(l, i, p)[0] == ".codeflowmu"
  {
  }

  lemma CopiesElsewhere(j: Job, t: Tree, log: seq<Backup>, p: Path)
    requires BackedUp(j, t, log) && p != [] && p[0] != ".codeflowmu"
    ensures forall b :: b in log ==> p != b.copy
  {
    forall b | b in log ensures p != b.copy {
      var i :| 0 <= i < |log| && log[i] == b;
      CopyIsScratch(j.layout, i, log[i].path);
    }
  }

  lemma NextCopyIsNew(j: Job, t: Tree, log: seq<Backup>, p: Path)
    requires BackedUp(j, t, log) && p != []
    ensures forall b :: b in log ==> BackupPath(j.layout, |log|, p) != b.copy
  {
    forall b | b in log ensures BackupPath(j.layout, |log|, p) != b.copy {
      var i :| 0 <= i < |log| && log[i] == b;
      BackupsDistinct(j.layout, |log|, p, i, log[i].path);
    }
  }

  lemma LogExtends(j: Job, t: Tree, moved: seq<string>, log: seq<Backup>, late: bool, path: Path)
    requires Recoverable(j, t, moved, log, late) && IsActiveTask(j.before, path) && IsFile(t, path)
    requires At(t, BackupPath(j.layout, |log|, path)) == At(j.before, path)
    ensures Recoverable(j, t, moved, log + [Backup(path, BackupPath(j.layout, |log|, path))], late)
  {
    var b := Backup(path, BackupPath(j.layout, |log|, path));
    LoggedPaths(log, b);
    BackedUpExtends(j, t, log, b);
  }

  lemma BackedUpExtends(j: Job, t: Tree, log: seq<Backup>, b: Backup)
    requires BackedUp(j, t, log) && IsActiveTask(j.before, b.path) && IsFile(t, b.path)
    requires b.copy == BackupPath(j.layout, |log|, b.path) && At(t, b.copy) == At(j.before, b.path)
    ensures BackedUp(j, t, log + [b])
  {
  }

  predicate IsRewritten(j: Job, t: Tree, p: Path) {
    && IsActiveTask(j.before, p)
    && At(t, p) == Some(File(Rewrite(j.layout, j.slug, j.before[p].text)))
  }

  lemma LoggedPaths(log: seq<Backup>, b: Backup)
    ensures Paths(log + [b]) == Paths(log) + {b.path}
  {
    assert (log + [b])[|log|] == b;
    assert forall c :: c in log ==> c in log + [b];
  }

  ghost predicate TasksRewritten(j: Job, t: Tree) {
    forall p :: IsActiveTask(j.before, p) ==> IsRewritten(j, t, p)
  }

  function ChangedTasks(j: Job): set<Path> {
    set p | p in j.before && IsActiveTask(j.before, p)
            && Rewrite(j.layout, j.slug, j.before[p].text) != j.before[p].text
  }

  ghost predicate Covered(files: seq<Path>, k: nat, done: set<Path>) {
    k <= |files| && (forall i :: 0 <= i < |files| ==> (files[i] in done <==> i < k))
  }

  lemma CoverStep(files: seq<Path>, k: nat, done: set<Path>)
    requires NoRepeat(files) && k < |files| && Covered(files, k, done)
    ensures Covered(files, k + 1, done + {files[k]})
  {
  }

  lemma AllCovered(files: seq<Path>, done: set<Path>)
    requires Covered(files, |files|, done)
    ensures forall p :: p in files ==> p in done
  {
  }

  lemma SameActiveTasks(j: Job, t: Tree, moved: seq<string>)
    requires Recoverable(j, t, moved, [], false)
    ensures forall p :: IsActiveTask(t, p) <==> IsActiveTask(j.before, p)
    ensures forall p :: IsActiveTask(t, p) ==> IsDir(t, Parent(p))
  {
    forall p | InActiveDir(p)
      ensures At(t, p) == At(j.before, p) && At(t, Parent(p)) == At(j.before, Parent(p))
    {
      InActiveDirIs(p);
      ProtocolStands(j, t, moved, {}, false, p);
      ProtocolStands(j, t, moved, {}, false, Parent(p));
    }
  }

  /** The tree once the config has been switched and only the emptied source is left to remove. */
  function SettledAt(j: Job, config: string, p: Path): Option<Node> {
    if p == CONFIG then Some(File(config))
    else if p == CONFIG_TMP then None
    else if IsActiveTask(j.before, p) then Some(File(Rewrite(j.layout, j.slug, j.before[p].text)))
    else Placed(j, j.names, p)
  }

  ghost predicate Settled(j: Job, t: Tree, config: string) {
    forall p :: !Scratch(j.layout, p) ==> At(t, p) == SettledAt(j, config, p)
  }

  /** A workspace that is itself called README.md, alone in the workspace directory. */
  ghost predicate SlugIsReadmeOnly(j: Job) { ChildNames(j.before, WORKSPACE) == {"README.md"} }

  lemma JoinDistinct(a: seq<Path>, b: seq<Path>)
    requires NoRepeat(a) && NoRepeat(b) && forall p :: p in b ==> p !in a
    ensures NoRepeat(a + b)
  {
    forall i, k | 0 <= i < k < |a + b| ensures (a + b)[i] != (a + b)[k] {
      if i < |a| <= k { assert b[k - |a|] in b; }
    }
  }

  method ActiveTaskFiles(disk: Disk) returns (r: Option<seq<Path>>)
    requires forall p :: IsActiveTask(disk.tree, p) ==> IsDir(disk.tree, Parent(p))
    modifies disk`clock
    ensures old(disk.clock) <= disk.clock
    ensures r.Some? ==> NoRepeat(r.value) && forall p :: p in r.value <==> IsActiveTask(disk.tree, p)
    ensures r.None? && (forall d :: d in ACTIVE_DIRS ==> !IsFile(disk.tree, d)) ==> disk.FaultSince(old(disk.clock))
  {
    var files: seq<Path> := [];
    for k := 0 to |ACTIVE_DIRS|
      invariant old(disk.clock) <= disk.clock && NoRepeat(files)
      invariant forall p :: p in files <==> IsActiveTask(disk.tree, p) && Parent(p) in ACTIVE_DIRS[..k]
    {
      var dir := ACTIVE_DIRS[k];
      assert ACTIVE_DIRS[..k + 1] == ACTIVE_DIRS[..k] + [dir];
      if dir in disk.tree {
        var found := TaskFilesIn(disk, dir);
        if found.None? {
          return None;
        }
        assert dir !in ACTIVE_DIRS[..k];
        JoinDistinct(files, found.value);
        files := files + found.value;
      }
    }
    assert ACTIVE_DIRS[..|ACTIVE_DIRS|] == ACTIVE_DIRS;
    r := Some(files);
  }

  method TaskFilesIn(disk: Disk, dir: Path) returns (r: Option<seq<Path>>)
    requires dir in ACTIVE_DIRS
    modifies disk`clock
    ensures old(disk.clock) <= disk.clock
    ensures r.Some? ==> NoRepeat(r.value)
    ensures r.Some? ==> forall p :: p in r.value <==> IsActiveTask(disk.tree, p) && Parent(p) == dir
    ensures r.None? && IsDir(disk.tree, dir) ==> disk.FaultSince(old(disk.clock))
  {
    var names := disk.ReadDir(dir);
    if names.None? {
      return None;
    }
    var files: seq<Path> := [];
    for i := 0 to |names.value|
      invariant TasksNamed(disk.tree, dir, names.value[..i], files) && old(disk.clock) <= disk.clock
    {
      var path := dir + [names.value[i]];
      OneMoreName(disk.tree, dir, names.value[..i], files, names.value[i]);
      assert names.value[..i + 1] == names.value[..i] + [names.value[i]];
      if IsActiveTask(disk.tree, path) {
        files := files + [path];
      }
    }
    assert names.value[..|names.value|] == names.value;
    AllNamed(disk.tree, dir, names.value, files);
    r := Some(files);
  }

  /** The files are the active tasks of the directory with these names, each once. */
  ghost predicate TasksNamed(t: Tree, dir: Path, names: seq<string>, files: seq<Path>) {
    && NoRepeat(files)
    && forall p :: p in files <==> IsActiveTask(t, p) && Parent(p) == dir && Name(p) in names
  }

  lemma OneMoreName(t: Tree, dir: Path, names: seq<string>, files: seq<Path>, n: string)
    requires TasksNamed(t, dir, names, files) && n !in names
    ensures TasksNamed(t, dir, names + [n], if IsActiveTask(t, dir + [n]) then files + [dir + [n]] else files)
  {
    var path := dir + [n];
    assert Parent(path) == dir && Name(path) == n;
    assert path !in files;
    forall p | p != [] && Parent(p) == dir && Name(p) == n ensures p == path {
      assert p == Parent(p) + [Name(p)];
    }
  }

  lemma AllNamed(t: Tree, dir: Path, names: seq<string>, files: seq<Path>)
    requires TasksNamed(t, dir, names, files) && forall n :: dir + [n] in t ==> n in names
    ensures forall p :: p in files <==> IsActiveTask(t, p) && Parent(p) == dir
  {
    forall p | IsActiveTask(t, p) && Parent(p) == dir ensures Name(p) in names {
      assert dir + [Name(p)] == p;
    }
  }

  /** The rename of the temporary config replaces the config and touches nothing else. */
  lemma ConfigReplaced(j: Job, t: Tree, moved: seq<string>, log: seq<Backup>, p: Path)
    requires Recoverable(j, t, moved, log, false)
    requires At(t, CONFIG_TMP) == SwitchedConfig(j) != None && !IsDir(j.before, CONFIG_TMP)
    ensures At(Renamed(t, CONFIG_TMP, CONFIG), p) ==
      if p == CONFIG then At(t, CONFIG_TMP) else if p == CONFIG_TMP then None else At(t, p)
  {
    assert |CONFIG[1]| != |CONFIG_TMP[1]|;
    RenamedAt(t, CONFIG_TMP, CONFIG, p);
    if p == CONFIG {
      assert Rebase(CONFIG, CONFIG, CONFIG_TMP) == CONFIG_TMP;
    } else if CONFIG <= p {
      NothingBelow(j, t, moved, log, CONFIG, p);
      NothingBelow(j, t, moved, log, CONFIG_TMP, Rebase(p, CONFIG, CONFIG_TMP));
    } else if CONFIG_TMP <= p && p != CONFIG_TMP {
      NothingBelow(j, t, moved, log, CONFIG_TMP, p);
    }
  }

  /** A change of the config files alone leaves every logged file and its backup as they were. */
  lemma LogElsewhere(j: Job, t: Tree, r: Tree, log: seq<Backup>)
    requires BackedUp(j, t, log)
    requires forall p :: p != CONFIG && p != CONFIG_TMP ==> At(r, p) == At(t, p)
    ensures BackedUp(j, r, log)
  {
    forall i | 0 <= i < |log|
      ensures At(r, log[i].path) == At(t, log[i].path) && At(r, log[i].copy) == At(t, log[i].copy)
    {
      InActiveDirIs(log[i].path);
      CopyIsScratch(j.layout, i, log[i].path);
    }
  }

  /** What a step that only switches the config leaves: everything else as it was. */
  lemma CommitStep(j: Job, t: Tree, moved: seq<string>, log: seq<Backup>)
    requires Recoverable(j, t, moved, log, false)
    requires At(t, CONFIG_TMP) == SwitchedConfig(j) != None && !IsDir(j.before, CONFIG_TMP)
    ensures Recoverable(j, Renamed(t, CONFIG_TMP, CONFIG), moved, log, true)
    ensures At(Renamed(t, CONFIG_TMP, CONFIG), CONFIG) == At(t, CONFIG_TMP)
    ensures At(Renamed(t, CONFIG_TMP, CONFIG), CONFIG_TMP) == None
    ensures forall p :: p != CONFIG && p != CONFIG_TMP ==> At(Renamed(t, CONFIG_TMP, CONFIG), p) == At(t, p)
  {
    var r := Renamed(t, CONFIG_TMP, CONFIG);
    assert |CONFIG[1]| != |CONFIG_TMP[1]|;
    ConfigReplaced(j, t, moved, log, CONFIG);
    ConfigReplaced(j, t, moved, log, CONFIG_TMP);
    forall p | p != CONFIG && p != CONFIG_TMP ensures At(r, p) == At(t, p) {
      ConfigReplaced(j, t, moved, log, p);
    }
    LogElsewhere(j, t, r, log);
    StaysRecoverable(j, t, r, moved, log);
  }

  lemma StaysRecoverable(j: Job, t: Tree, r: Tree, moved: seq<string>, log: seq<Backup>)
    requires Recoverable(j, t, moved, log, false) && BackedUp(j, r, log)
    requires forall p :: p != CONFIG && p != CONFIG_TMP ==> At(r, p) == At(t, p)
    requires At(r, CONFIG) == SwitchedConfig(j) != None
    ensures Recoverable(j, r, moved, log, true)
  {
    assert WORKSPACE[0] == Source(j.slug)[0] == "workspace" && CONFIG[0] == CONFIG_TMP[0] == "fcop";
    assert At(r, WORKSPACE) == At(t, WORKSPACE) && At(r, Source(j.slug)) == At(t, Source(j.slug));
  }

  lemma NothingBelow(j: Job, t: Tree, moved: seq<string>, log: seq<Backup>, top: Path, p: Path)
    requires Recoverable(j, t, moved, log, false)
    requires top == CONFIG || top == CONFIG_TMP
    requires !IsDir(j.before, top) && top <= p && p != top
    ensures At(t, p) == None
  {
    if p in j.before { AncestorsExist(j.before, top, p); }
    assert p[0] == top[0] == "fcop" && |p| > 2;
    ProtocolStands(j, t, moved, Paths(log), false, p);
  }

  /** Once the entries are out, removing the source, or a workspace holding nothing but a readme, loses nothing the
      log answers for. */
  lemma RemovalKeeps(j: Job, t: Tree, log: seq<Backup>, top: Path, kept: set<Path>)
    requires Recoverable(j, t, j.names, log, true)
    requires top == Source(j.slug) || (top == WORKSPACE && ChildNames(t, WORKSPACE) <= {"README.md"})
    ensures Recoverable(j, Without(t, top, kept), j.names, log, true)
  {
    var r := Without(t, top, kept);
    assert top[0] == "workspace" && CONFIG[0] == "fcop" && !(top <= CONFIG);
    forall p | !Exempt(j, true, p) && p !in Paths(log) ensures At(r, p) == Placed(j, j.names, p) {
      if top <= p {
        LeftoversAreExempt(j, t, log, top, p);
      }
    }
    forall i | 0 <= i < |log|
      ensures At(r, log[i].path) == At(t, log[i].path) && At(r, log[i].copy) == At(t, log[i].copy)
    {
      InActiveDirIs(log[i].path);
      CopyIsScratch(j.layout, i, log[i].path);
    }
  }

  lemma LeftoversAreExempt(j: Job, t: Tree, log: seq<Backup>, top: Path, p: Path)
    requires Recoverable(j, t, j.names, log, true)
    requires top == Source(j.slug) || (top == WORKSPACE && ChildNames(t, WORKSPACE) <= {"README.md"})
    requires top <= p && !Exempt(j, true, p) && p !in Paths(log)
    ensures At(t, p) == None
  {
    assert "workspace" !in j.names by {
      if "workspace" in j.names { NamesAreFree(j, "workspace"); }
    }
    if p in j.before {
      if Source(j.slug) <= p {
        AncestorsExist(j.before, p[..3], p);
        assert p[..3] == Source(j.slug) + [p[2]];
      } else {
        EntryName(p);
        OnlyReadmeBeside(j, t, log, p);
      }
    }
  }

  lemma EntryName(p: Path)
    requires WORKSPACE <= p && p != WORKSPACE
    ensures |p| >= 2 && p[0] == "workspace" && WORKSPACE + [p[1]] <= p
  {
    assert p[..2] == WORKSPACE + [p[1]];
  }

  /** Another workspace entry that is no readme stays. */
  lemma EntryStays(j: Job, t: Tree, log: seq<Backup>, n: string)
    requires Recoverable(j, t, j.names, log, true) && WORKSPACE + [n] in j.before
    requires n != "README.md" && n != j.slug
    ensures WORKSPACE + [n] in t
  {
    assert "workspace" !in j.names by {
      if "workspace" in j.names { NamesAreFree(j, "workspace"); }
    }
    var entry := WORKSPACE + [n];
    assert entry[0] == "workspace" && entry[1] == n && |entry| == 2;
    assert !Exempt(j, true, entry) && entry !in Paths(log);
    assert At(t, entry) == Placed(j, j.names, entry);
  }

  /** A workspace with nothing but a readme left held nothing else beside the source before. */
  lemma OnlyReadmeBeside(j: Job, t: Tree, log: seq<Backup>, p: Path)
    requires Recoverable(j, t, j.names, log, true) && ChildNames(t, WORKSPACE) <= {"README.md"}
    requires |p| >= 2 && p[0] == "workspace" && p[1] != "README.md" && p[1] != j.slug
    ensures p !in j.before
  {
    if p in j.before {
      AncestorsExist(j.before, WORKSPACE + [p[1]], p);
      EntryStays(j, t, log, p[1]);
      ChildNamesAt(t, WORKSPACE, p[1]);
      assert false;
    }
  }

  lemma SettledByCommit(j: Job, t: Tree, r: Tree, log: seq<Backup>, config: string)
    requires Recoverable(j, t, j.names, log, false) && TasksRewritten(j, t)
    requires At(r, CONFIG) == Some(File(config)) && At(r, CONFIG_TMP) == None
    requires forall p :: p != CONFIG && p != CONFIG_TMP ==> At(r, p) == At(t, p)
    ensures Settled(j, r, config)
  {
    forall p | IsActiveTask(j.before, p) ensures p != CONFIG && p != CONFIG_TMP {
      InActiveDirIs(p);
    }
  }

  lemma ConfigStands(j: Job, t: Tree, moved: seq<string>, log: seq<Backup>)
    requires Recoverable(j, t, moved, log, false)
    ensures At(t, CONFIG) == At(j.before, CONFIG)
  {
    assert CONFIG !in Paths(log) by {
      forall p | InActiveDir(p) ensures p != CONFIG { InActiveDirIs(p); }
    }
    assert |CONFIG[1]| != |CONFIG_TMP[1]|;
    ProtocolStands(j, t, moved, Paths(log), false, CONFIG);
  }

  /** The tasks in `done` are rewritten and exactly the changed ones among them are logged. */
  ghost predicate Progress(j: Job, t: Tree, log: seq<Backup>, done: set<Path>) {
    && (forall p :: p in done ==> IsRewritten(j, t, p))
    && (forall p :: p in Paths(log) <==> p in done && p in ChangedTasks(j))
  }

  lemma ProgressStep(j: Job, t: Tree, t': Tree, log: seq<Backup>, log': seq<Backup>, done: set<Path>, path: Path)
    requires Progress(j, t, log, done) && path !in done && IsRewritten(j, t', path)
    requires forall p :: p != path && !Scratch(j.layout, p) ==> At(t', p) == At(t, p)
    requires Paths(log') == Paths(log) + if path in ChangedTasks(j) then {path} else {}
    ensures Progress(j, t', log', done + {path})
  {
    forall p | p in done + {path} ensures IsRewritten(j, t', p) {
      if p != path {
        InActiveDirIs(p);
        assert IsRewritten(j, t, p) && !Scratch(j.layout, p);
      }
    }
  }

  /** The log counts the changed tasks. */
  lemma ProgressCounts(j: Job, t: Tree, log: seq<Backup>, log': seq<Backup>, done: set<Path>, path: Path)
    requires Progress(j, t, log, done) && path !in done
    requires Paths(log') == Paths(log) + if path in ChangedTasks(j) then {path} else {}
    ensures |Paths(log')| == |Paths(log)| + if path in ChangedTasks(j) then 1 else 0
  {
    OneMore(Paths(log), path);
  }

  lemma OneMore(paths: set<Path>, p: Path)
    requires p !in paths
    ensures |paths + {p}| == |paths| + 1
  {
  }

  lemma AllDone(j: Job, t: Tree, log: seq<Backup>, done: set<Path>)
    requires Progress(j, t, log, done) && forall p :: IsActiveTask(j.before, p) ==> p in done
    ensures TasksRewritten(j, t) && Paths(log) == ChangedTasks(j)
  {
    forall p ensures p in Paths(log) <==> p in ChangedTasks(j) {
      if p in ChangedTasks(j) { assert IsActiveTask(j.before, p); }
    }
  }

  lemma SameWorkspace(j: Job, t: Tree, config: string)
    requires Sound(j) && Settled(j, t, config)
    ensures ChildNames(t, WORKSPACE) == ChildNames(j.before, WORKSPACE)
  {
    assert "workspace" !in j.names by {
      if "workspace" in j.names { NamesAreFree(j, "workspace"); }
    }
    forall n ensures n in ChildNames(t, WORKSPACE) <==> n in ChildNames(j.before, WORKSPACE) {
      var p := WORKSPACE + [n];
      ChildNamesAt(t, WORKSPACE, n);
      ChildNamesAt(j.before, WORKSPACE, n);
      assert p[0] == "workspace" && !Scratch(j.layout, p);
      assert !InActiveDir(p) by { if InActiveDir(p) { InActiveDirIs(p); } }
      assert At(t, p) == At(j.before, p);
    }
  }

  /** The tree after a migration that returns; the scratch area is not described. */
  function FinalAt(j: Job, config: string, p: Path): Option<Node> {
    if Source(j.slug) <= p then None
    else if WORKSPACE <= p && ChildNames(j.before, WORKSPACE) <= {j.slug, "README.md"} then None
    else SettledAt(j, config, p)
  }

  ghost predicate Finished(j: Job, t: Tree, config: string) {
    forall p :: !Scratch(j.layout, p) ==> At(t, p) == FinalAt(j, config, p)
  }

  ghost predicate Succeeded(j: Job, t: Tree) {
    && !SlugIsReadmeOnly(j)
    && exists config :: SwitchedConfig(j) == Some(File(config)) && Finished(j, t, config)
  }

  lemma ManifestKeeps(j: Job, t: Tree, r: Tree, config: string)
    requires SwitchedConfig(j) == Some(File(config)) && Finished(j, t, config) && !SlugIsReadmeOnly(j)
    requires OneFileWritten(t, r, Manifest(j.layout))
    ensures Succeeded(j, r)
  {
    assert Scratch(j.layout, Manifest(j.layout));
    assert Finished(j, r, config);
  }

  lemma RemovedWorkspace(j: Job, t: Tree, config: string)
    requires Sound(j) && (WORKSPACE in t ==> Settled(j, t, config) && !SlugIsReadmeOnly(j))
    requires WORKSPACE in Without(t, Source(j.slug), {})
    ensures
      var u := Without(t, Source(j.slug), {});
      var r := if ChildNames(u, WORKSPACE) <= {"README.md"} then Without(u, WORKSPACE, {}) else u;
      Finished(j, r, config) && !SlugIsReadmeOnly(j)
  {
    var u := Without(t, Source(j.slug), {});
    SameWorkspace(j, t, config);
    ChildrenWithout(t, j.slug);
    var gone := ChildNames(u, WORKSPACE) <= {"README.md"};
    SubsetOfPair(ChildNames(j.before, WORKSPACE), j.slug, "README.md");
    assert WORKSPACE in t;
    assert ChildNames(u, WORKSPACE) == ChildNames(j.before, WORKSPACE) - {j.slug};
    var r := if gone then Without(u, WORKSPACE, {}) else u;
    forall p | !Scratch(j.layout, p) ensures At(r, p) == FinalAt(j, config, p) {
      assert At(t, p) == SettledAt(j, config, p);
    }
  }

  lemma SubsetOfPair(a: set<string>, x: string, y: string)
    ensures a - {x} <= {y} <==> a <= {x, y}
  {
    if a - {x} <= {y} {
      forall n | n in a ensures n in {x, y} { assert n == x || n in a - {x}; }
    }
  }

  lemma ChildrenWithout(t: Tree, slug: string)
    ensures ChildNames(Without(t, Source(slug), {}), WORKSPACE) == ChildNames(t, WORKSPACE) - {slug}
  {
    var u := Without(t, Source(slug), {});
    forall n ensures n in ChildNames(u, WORKSPACE) <==> n in ChildNames(t, WORKSPACE) && n != slug {
      ChildNamesAt(u, WORKSPACE, n);
      ChildNamesAt(t, WORKSPACE, n);
      assert (WORKSPACE + [n])[1] == n;
    }
  }

  /** Halfway through the first loop of the catch block: the log entries from i on are restored. */
  ghost predicate Restored(j: Job, t: Tree, moved: seq<string>, log: seq<Backup>, i: nat, late: bool) {
    && Sound(j) && moved <= j.names && i <= |log|
    && Stands(j, t, moved, Paths(log[..i]), late)
    && BackedUp(j, t, log)
    && NoFile(t, WORKSPACE) && NoFile(t, Source(j.slug))
    && (late ==> At(t, CONFIG) == SwitchedConfig(j) != None)
  }

  /** The copy of the task restored next is what its place holds after the moves. */
  lemma CopyHolds(j: Job, t: Tree, moved: seq<string>, log: seq<Backup>, i: nat)
    requires i < |log| && Sound(j) && moved <= j.names && BackedUp(j, t, log)
    ensures log[i].copy in t && t[log[i].copy].File? && Some(t[log[i].copy]) == Placed(j, moved, log[i].path)
    ensures InActiveDir(log[i].path)
  {
    InActiveDirIs(log[i].path);
    ProtocolPlaced(j, moved, log[i].path);
  }

  lemma LoggedUpTo(log: seq<Backup>, i: nat)
    requires i < |log|
    ensures Paths(log[..i + 1]) == Paths(log[..i]) + {log[i].path}
  {
    assert log[..i + 1] == log[..i] + [log[i]];
    LoggedPaths(log[..i], log[i]);
  }

  lemma RestoreStep(j: Job, t: Tree, moved: seq<string>, log: seq<Backup>, i: nat, late: bool)
    requires i < |log| && Restored(j, t, moved, log, i + 1, late)
    ensures log[i].copy in t
    ensures Restored(j, t[log[i].path := t[log[i].copy]], moved, log, i, late)
  {
    var p := log[i].path;
    CopyHolds(j, t, moved, log, i);
    InActiveDirIs(p);
    BackupsSurvive(j, t, log, p, t[log[i].copy]);
    LoggedUpTo(log, i);
    StandsWith(j, t, moved, Paths(log[..i]), late, p, t[log[i].copy]);
  }

  lemma StandsWith(j: Job, t: Tree, moved: seq<string>, touched: set<Path>, late: bool, p: Path, node: Node)
    requires Stands(j, t, moved, touched + {p}, late) && Some(node) == Placed(j, moved, p)
    ensures Stands(j, t[p := node], moved, touched, late)
  {
    forall q | !Exempt(j, late, q) && q !in touched ensures At(t[p := node], q) == Placed(j, moved, q) {
      if q != p { assert q !in touched + {p}; }
    }
  }

  lemma BackupsSurvive(j: Job, t: Tree, log: seq<Backup>, p: Path, node: Node)
    requires BackedUp(j, t, log) && p != [] && p[0] == "fcop" && node.File?
    ensures BackedUp(j, t[p := node], log)
  {
    var r := t[p := node];
    CopiesElsewhere(j, t, log, p);
    forall k | 0 <= k < |log| ensures At(r, log[k].copy) == At(t, log[k].copy) && IsFile(r, log[k].path) {
      assert log[k] in log;
    }
  }

  lemma ProtocolPlaced(j: Job, moved: seq<string>, p: Path)
    requires Sound(j) && moved <= j.names && p != [] && p[0] == "fcop"
    ensures Placed(j, moved, p) == At(j.before, p)
  {
    assert "fcop" !in j.names by {
      if "fcop" in j.names { NamesAreFree(j, "fcop"); }
    }
  }

  lemma SourceDirsAt(t: Tree, slug: string, p: Path)
    ensures At(WithDirs(t, Source(slug)), p)
         == if (p == [] || p == WORKSPACE || p == Source(slug)) && p !in t then Some(Dir) else At(t, p)
  {
    WithDirsAt(t, Source(slug), p);
    if p <= Source(slug) {
      assert p == Source(slug)[..|p|];
    }
  }

  lemma WayToSource(t: Tree, slug: string)
    requires NoFile(t, []) && NoFile(t, WORKSPACE) && NoFile(t, Source(slug))
    ensures NoFileOnTheWay(t, Source(slug))
  {
    var s := Source(slug);
    assert s[..0] == [] && s[..1] == WORKSPACE && s[..2] == s;
  }

  lemma MkdirKeeps(j: Job, t: Tree, moved: seq<string>, late: bool)
    requires Recoverable(j, t, moved, [], late)
    ensures NoFileOnTheWay(t, Source(j.slug))
    ensures Recoverable(j, WithDirs(t, Source(j.slug)), moved, [], late)
    ensures IsDir(WithDirs(t, Source(j.slug)), Source(j.slug))
  {
    var s := Source(j.slug);
    var r := WithDirs(t, s);
    assert At(t, []) == Placed(j, moved, []) == Some(Dir);
    WayToSource(t, j.slug);
    SourceDirsAt(t, j.slug, WORKSPACE);
    SourceDirsAt(t, j.slug, s);
    WorkspaceIsDir(j, moved);
    forall p | !Exempt(j, late, p) ensures At(r, p) == Placed(j, moved, p) {
      SourceDirsAt(t, j.slug, p);
      assert At(t, p) == Placed(j, moved, p);
    }
  }

  lemma WorkspaceIsDir(j: Job, moved: seq<string>)
    requires Sound(j) && moved <= j.names
    ensures Placed(j, moved, WORKSPACE) == Some(Dir) && Placed(j, moved, Source(j.slug)) == Some(Dir)
  {
    assert Parent(Source(j.slug)) == WORKSPACE;
    assert "workspace" !in j.names by {
      if "workspace" in j.names { NamesAreFree(j, "workspace"); }
    }
  }

  lemma MovedIsThere(j: Job, t: Tree, moved: seq<string>, late: bool, n: string)
    requires Recoverable(j, t, moved + [n], [], late)
    requires IsDir(t, Source(j.slug))
    ensures [n] in t && CanRename(t, [n], Source(j.slug) + [n])
  {
    var to := Source(j.slug) + [n];
    PrefixMembers(moved, n, j.names);
    NamesAreFree(j, n);
    assert Parent(to) == Source(j.slug);
    assert to[0] == "workspace" && to[2] == n;
    assert Source(j.slug) + [n] == to;
    assert "workspace" !in moved + [n] by {
      if "workspace" in j.names { NamesAreFree(j, "workspace"); }
    }
    assert !Exempt(j, late, [n]) && !Exempt(j, late, to);
    assert At(t, [n]) == Placed(j, moved + [n], [n]) == At(j.before, to);
    assert At(t, to) == Placed(j, moved + [n], to) == None;
  }

  /** Everything is back as before the run, apart from scratch files and what a switched config leaves. */
  ghost predicate Undone(j: Job, t: Tree, committed: bool) {
    && Stands(j, t, [], {}, committed)
    && (committed ==> At(t, CONFIG) == SwitchedConfig(j))
  }

  ghost predicate Untouched(j: Job, t: Tree) {
    forall p :: !Scratch(j.layout, p) ==> At(t, p) == At(j.before, p)
  }

  lemma ScratchDirs(j: Job, t: Tree, r: Tree)
    requires WellFormed(t)
    requires PartlyMade(t, r, TaskBackupRoot(j.layout))
    ensures forall p :: !Scratch(j.layout, p) ==> At(r, p) == At(t, p)
  {
    var root := TaskBackupRoot(j.layout);
    if r != t {
      var k :| 0 <= k <= |root| && r == WithDirs(t, root[..k]);
      forall p | !Scratch(j.layout, p) ensures At(r, p) == At(t, p) {
        WithDirsAt(t, root[..k], p);
        ScratchPrefix(j.layout, k, p);
      }
    }
  }

  lemma ScratchPrefix(l: Layout, k: nat, p: Path)
    requires k <= |TaskBackupRoot(l)|
    ensures p != [] && p <= TaskBackupRoot(l)[..k] ==> Scratch(l, p)
  {
    var root := TaskBackupRoot(l);
    assert root[..3] == BackupRoot(l);
    if p <= root[..k] {
      assert p == root[..|p|];
      assert |p| <= 3 ==> p == BackupRoot(l)[..|p|];
    }
  }

  lemma ReadyToStart(j: Job, t: Tree)
    requires Sound(j) && Untouched(j, t)
    ensures Recoverable(j, t, [], [], false)
  {
    WorkspaceIsDir(j, []);
    assert !Scratch(j.layout, WORKSPACE) && !Scratch(j.layout, Source(j.slug));
  }

  lemma NamesCounted(j: Job)
    requires Sound(j)
    ensures |j.names| == |ChildNames(j.before, Source(j.slug))|
  {
    forall n ensures n in ChildNames(j.before, Source(j.slug)) <==> n in j.names {
      ChildNamesAt(j.before, Source(j.slug), n);
    }
    ListingSize(j.names, ChildNames(j.before, Source(j.slug)));
  }

  lemma {:induction false} ListingSize(names: seq<string>, all: set<string>)
    requires NoRepeat(names) && forall n :: n in names <==> n in all
    ensures |names| == |all|
  {
    if names == [] {
      assert all == {};
    } else {
      var last := names[|names| - 1];
      assert forall n :: n in names[..|names| - 1] <==> n in all - {last};
      ListingSize(names[..|names| - 1], all - {last});
    }
  }

  // ----- what a migration needs to go through

  /** The backup directory stands and nothing in it is in the way of a file to write. */
  ghost predicate Room(l: Layout, t: Tree) {
    && IsDir(t, BackupRoot(l)) && IsDir(t, TaskBackupRoot(l))
    && (forall n :: !IsDir(t, TaskBackupRoot(l) + [n]))
    && !IsDir(t, Manifest(l))
  }

  function Manifest(l: Layout): Path { BackupRoot(l) + ["migration.json"] }

  /** Conditions on the project alone under which only a fault can keep a planned migration from switching the
      config. */
  ghost predicate Startable(j: Job) {
    && NoFileOnTheWay(j.before, TaskBackupRoot(j.layout))
    && (forall n :: !IsDir(j.before, TaskBackupRoot(j.layout) + [n])) && !IsDir(j.before, Manifest(j.layout))
    && (forall d :: d in ACTIVE_DIRS ==> !IsFile(j.before, d))
    && SwitchedConfig(j) != None && !IsDir(j.before, CONFIG_TMP)
  }

  /** ... and from completing. */
  ghost predicate Ready(j: Job) { Startable(j) && !SlugIsReadmeOnly(j) }

  lemma RoomWrites(l: Layout, t: Tree, r: Tree, p: Path)
    requires Room(l, t) && OneFileWritten(t, r, p)
    ensures Room(l, r)
  {
  }

  lemma RoomMade(l: Layout, t: Tree)
    requires NoFileOnTheWay(t, TaskBackupRoot(l)) && !IsDir(t, Manifest(l))
    requires forall n :: !IsDir(t, TaskBackupRoot(l) + [n])
    ensures Room(l, WithDirs(t, TaskBackupRoot(l)))
  {
    var root := TaskBackupRoot(l);
    assert root[..3] == BackupRoot(l) && root[..4] == root;
    WithDirsAt(t, root, root);
    WithDirsAt(t, root, BackupRoot(l));
    WithDirsAt(t, root, Manifest(l));
    assert Manifest(l)[3] != root[3];
    forall n ensures !IsDir(WithDirs(t, root), root + [n]) {
      WithDirsAt(t, root, root + [n]);
    }
  }

  lemma RoomMoves(j: Job, t: Tree, n: string)
    requires Sound(j) && n in j.names && Room(j.layout, t)
    ensures Room(j.layout, Renamed(t, Source(j.slug) + [n], [n]))
  {
    NamesAreFree(j, n);
    var from := Source(j.slug) + [n];
    assert from[0] == "workspace" && from[2] == n;
    RenamedAt(t, from, [n], BackupRoot(j.layout));
    RenamedAt(t, from, [n], TaskBackupRoot(j.layout));
    RenamedAt(t, from, [n], Manifest(j.layout));
    forall m ensures !IsDir(Renamed(t, from, [n]), TaskBackupRoot(j.layout) + [m]) {
      RenamedAt(t, from, [n], TaskBackupRoot(j.layout) + [m]);
    }
  }

  lemma RoomCommits(l: Layout, t: Tree)
    requires Room(l, t)
    ensures Room(l, Renamed(t, CONFIG_TMP, CONFIG))
  {
    assert |CONFIG[1]| != |CONFIG_TMP[1]|;
    RenamedAt(t, CONFIG_TMP, CONFIG, BackupRoot(l));
    RenamedAt(t, CONFIG_TMP, CONFIG, TaskBackupRoot(l));
    RenamedAt(t, CONFIG_TMP, CONFIG, Manifest(l));
    forall m ensures !IsDir(Renamed(t, CONFIG_TMP, CONFIG), TaskBackupRoot(l) + [m]) {
      RenamedAt(t, CONFIG_TMP, CONFIG, TaskBackupRoot(l) + [m]);
    }
  }

  lemma RoomRemoves(l: Layout, t: Tree, top: Path)
    requires Room(l, t) && WORKSPACE <= top
    ensures Room(l, Without(t, top, {}))
  {
    assert top[0] == "workspace";
  }

  lemma RoomForCopy(l: Layout, t: Tree, i: nat, p: Path)
    requires Room(l, t) && p != []
    ensures CanWrite(t, BackupPath(l, i, p)) && CanWrite(t, Manifest(l))
  {
    assert Parent(BackupPath(l, i, p)) == TaskBackupRoot(l);
    assert BackupPath(l, i, p) == TaskBackupRoot(l) + [Name(BackupPath(l, i, p))];
    assert Parent(Manifest(l)) == BackupRoot(l);
  }

  /** An entry not yet moved can be. */
  lemma CanMove(j: Job, t: Tree, moved: seq<string>, n: string)
    requires Recoverable(j, t, moved, [], false) && moved + [n] <= j.names
    ensures CanRename(t, Source(j.slug) + [n], [n])
  {
    var from := Source(j.slug) + [n];
    PrefixMembers(moved, n, j.names);
    NamesAreFree(j, n);
    assert "workspace" !in moved by {
      if "workspace" in j.names { NamesAreFree(j, "workspace"); }
    }
    assert from[0] == "workspace" && from[2] == n;
    assert !Exempt(j, false, from) && !Exempt(j, false, [n]) && !Exempt(j, false, []);
    assert At(t, from) == Placed(j, moved, from) == At(j.before, from);
    assert At(t, [n]) == Placed(j, moved, [n]) == At(j.before, [n]);
    assert [n] <= [n];
    assert At(t, []) == Placed(j, moved, []);
  }

  /** The rename of one more entry. */
  lemma EntryMoved(j: Job, t: Tree, moved: seq<string>, n: string)
    requires Recoverable(j, t, moved, [], false) && moved + [n] <= j.names
    ensures CanRename(t, Source(j.slug) + [n], [n])
    ensures
      var r := Renamed(t, Source(j.slug) + [n], [n]);
      && Recoverable(j, r, moved + [n], [], false) && At(r, CONFIG_TMP) == At(t, CONFIG_TMP)
      && (Room(j.layout, t) ==> Room(j.layout, r))
  {
    PrefixMembers(moved, n, j.names);
    CanMove(j, t, moved, n);
    MoveStep(j, t, moved, false, n);
    WorkspaceStays(j, t, moved, n);
    if Room(j.layout, t) { RoomMoves(j, t, n); }
  }

  /** The rename of the last moved entry back. */
  lemma EntryUnmoved(j: Job, t: Tree, moved: seq<string>, late: bool, n: string)
    requires Recoverable(j, t, moved + [n], [], late) && IsDir(t, Source(j.slug))
    ensures [n] in t && CanRename(t, [n], Source(j.slug) + [n])
    ensures
      var r := Renamed(t, [n], Source(j.slug) + [n]);
      Recoverable(j, r, moved, [], late) && IsDir(r, Source(j.slug))
  {
    MovedIsThere(j, t, moved, late, n);
    WorkspaceStays(j, t, moved, n);
    UnmoveStep(j, t, moved, late, n);
  }

  lemma NotYetTouched(j: Job, t: Tree, moved: seq<string>, log: seq<Backup>, p: Path)
    requires Recoverable(j, t, moved, log, false) && IsActiveTask(j.before, p) && p !in Paths(log)
    ensures At(t, p) == At(j.before, p)
  {
    InActiveDirIs(p);
    ProtocolStands(j, t, moved, Paths(log), false, p);
  }

  /** An untouched task is to be rewritten exactly if its text changes. */
  lemma NeedsRewrite(j: Job, t: Tree, moved: seq<string>, log: seq<Backup>, p: Path)
    requires Recoverable(j, t, moved, log, false) && IsActiveTask(j.before, p) && p !in Paths(log)
    ensures IsFile(t, p)
    ensures p in ChangedTasks(j) <==> Rewrite(j.layout, j.slug, t[p].text) != t[p].text
    ensures p !in ChangedTasks(j) ==> IsRewritten(j, t, p)
    ensures IsRewritten(j, t[p := File(Rewrite(j.layout, j.slug, t[p].text))], p)
  {
    NotYetTouched(j, t, moved, log, p);
  }

  /** A write to the next backup file, successful or not: nothing else changes, and a complete copy can be logged. */
  lemma CopyWritten(j: Job, t: Tree, r: Tree, moved: seq<string>, log: seq<Backup>, path: Path)
    requires Recoverable(j, t, moved, log, false) && IsActiveTask(j.before, path) && path !in Paths(log)
    requires OneFileWritten(t, r, BackupPath(j.layout, |log|, path))
    ensures Recoverable(j, r, moved, log, false)
    ensures forall p :: !Scratch(j.layout, p) ==> At(r, p) == At(t, p)
    ensures Room(j.layout, t) ==> Room(j.layout, r)
    ensures
      var copy := BackupPath(j.layout, |log|, path);
      At(r, copy) == At(j.before, path) ==> Recoverable(j, r, moved, log + [Backup(path, copy)], false)
  {
    var copy := BackupPath(j.layout, |log|, path);
    CopyIsScratch(j.layout, |log|, path);
    NextCopyIsNew(j, t, log, path);
    InActiveDirIs(path);
    WriteKeeps(j, t, r, moved, log, false, copy);
    NotYetTouched(j, r, moved, log, path);
    if At(r, copy) == At(j.before, path) { LogExtends(j, r, moved, log, false, path); }
    if Room(j.layout, t) { RoomWrites(j.layout, t, r, copy); }
  }

  lemma SameActiveDirs(j: Job, t: Tree, moved: seq<string>)
    requires Recoverable(j, t, moved, [], false) && forall d :: d in ACTIVE_DIRS ==> !IsFile(j.before, d)
    ensures forall d :: d in ACTIVE_DIRS ==> !IsFile(t, d)
  {
    forall d | d in ACTIVE_DIRS ensures At(t, d) == At(j.before, d) {
      assert d[0] == "fcop" && d[1] != "fcop.json" && |d[1]| <= 10;
      ProtocolStands(j, t, moved, {}, false, d);
    }
  }

  lemma CanOverwrite(j: Job, t: Tree, moved: seq<string>, log: seq<Backup>, late: bool, p: Path)
    requires Recoverable(j, t, moved, log, late) && p in Paths(log)
    ensures CanWrite(t, p)
  {
    var i :| 0 <= i < |log| && log[i].path == p;
    InActiveDirIs(p);
    assert IsDir(j.before, Parent(p));
    ProtocolStands(j, t, moved, Paths(log), late, Parent(p));
  }

  lemma CanSwitch(j: Job, t: Tree, moved: seq<string>, log: seq<Backup>)
    requires Recoverable(j, t, moved, log, false) && SwitchedConfig(j) != None
    requires !IsDir(j.before, CONFIG_TMP) && At(t, CONFIG_TMP) == At(j.before, CONFIG_TMP)
    ensures IsFile(t, CONFIG) && CanWrite(t, CONFIG_TMP)
  {
    ConfigStands(j, t, moved, log);
    var fcop := Parent(CONFIG);
    assert Parent(CONFIG_TMP) == fcop == ["fcop"];
    assert IsDir(j.before, fcop);
    assert fcop !in Paths(log) by {
      forall p | InActiveDir(p) ensures p != fcop { InActiveDirIs(p); }
    }
    ProtocolStands(j, t, moved, Paths(log), false, fcop);
  }

  lemma CanCommit(j: Job, t: Tree, moved: seq<string>, log: seq<Backup>)
    requires Recoverable(j, t, moved, log, false) && At(t, CONFIG_TMP) == SwitchedConfig(j) != None
    ensures CanRename(t, CONFIG_TMP, CONFIG)
  {
    ConfigStands(j, t, moved, log);
    assert |CONFIG[1]| != |CONFIG_TMP[1]|;
    var fcop := Parent(CONFIG);
    assert fcop == ["fcop"] && IsDir(j.before, fcop);
    assert fcop !in Paths(log) by {
      forall p | InActiveDir(p) ensures p != fcop { InActiveDirIs(p); }
    }
    ProtocolStands(j, t, moved, Paths(log), false, fcop);
  }

  /** The rename that commits. */
  lemma ConfigRenamed(j: Job, t: Tree, log: seq<Backup>, config: string)
    requires Recoverable(j, t, j.names, log, false) && TasksRewritten(j, t)
    requires At(t, CONFIG_TMP) == SwitchedConfig(j) == Some(File(config)) && !IsDir(j.before, CONFIG_TMP)
    ensures CanRename(t, CONFIG_TMP, CONFIG)
    ensures
      var r := Renamed(t, CONFIG_TMP, CONFIG);
      && Recoverable(j, r, j.names, log, true) && Settled(j, r, config)
      && (Room(j.layout, t) ==> Room(j.layout, r))
  {
    CommitStep(j, t, j.names, log);
    CanCommit(j, t, j.names, log);
    SettledByCommit(j, t, Renamed(t, CONFIG_TMP, CONFIG), log, config);
    if Room(j.layout, t) { RoomCommits(j.layout, t); }
  }

  /** A write to the temporary config file, successful or not. */
  lemma TmpWritten(j: Job, t: Tree, r: Tree, moved: seq<string>, log: seq<Backup>)
    requires Recoverable(j, t, moved, log, false) && OneFileWritten(t, r, CONFIG_TMP)
    ensures Recoverable(j, r, moved, log, false)
    ensures TasksRewritten(j, t) ==> TasksRewritten(j, r)
    ensures Room(j.layout, t) ==> Room(j.layout, r)
  {
    CopiesElsewhere(j, t, log, CONFIG_TMP);
    WriteKeeps(j, t, r, moved, log, false, CONFIG_TMP);
    forall p | IsActiveTask(j.before, p) ensures p != CONFIG_TMP { InActiveDirIs(p); }
    if Room(j.layout, t) { RoomWrites(j.layout, t, r, CONFIG_TMP); }
  }

  lemma WorkspaceSettled(j: Job, t: Tree, config: string)
    requires Sound(j) && Settled(j, t, config)
    ensures IsDir(t, WORKSPACE)
    ensures ChildNames(t, WORKSPACE) <= {"README.md"} <==> SlugIsReadmeOnly(j)
  {
    WorkspaceIsDir(j, j.names);
    assert !Scratch(j.layout, WORKSPACE);
    assert !InActiveDir(WORKSPACE) by { if InActiveDir(WORKSPACE) { InActiveDirIs(WORKSPACE); } }
    SameWorkspace(j, t, config);
    ChildNamesAt(j.before, WORKSPACE, j.slug);
  }
}
