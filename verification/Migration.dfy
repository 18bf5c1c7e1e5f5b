/** Moving the single internal workspace up to the project root, as a transaction with an undo log. */
module Migration {
  import opened Text
  import opened FileTree
  import opened Sorting
  import opened MigrationPlan
  import opened MigrationLog

  predicate NotReadme(n: string) { n != "README.md" }

  /** How often the config has been switched. */
  ghost function Switches(disk: Disk): nat
    reads disk
  {
    disk.renamed[(CONFIG_TMP, CONFIG)]
  }

  /** The try block of a migration together with its two undo logs. */
  class Transaction {
    const disk: Disk
    const layout: Layout
    const slug: string
    const names: seq<string>
    ghost const job: Job
    ghost const switchesBefore: nat
    var moved: seq<string>
    var backups: seq<Backup>
    var updated: nat
    var committed: bool

    ghost predicate CanUndo()
      reads this, disk
    {
      && job.layout == layout && job.slug == slug && job.names == names
      && Recoverable(job, disk.tree, moved, backups, committed)
      && Switches(disk) == switchesBefore + if committed then 1 else 0
    }

    constructor (disk: Disk, layout: Layout, slug: string, names: seq<string>, ghost job: Job)
      requires job.layout == layout && job.slug == slug && job.names == names
      requires Recoverable(job, disk.tree, [], [], false)
      ensures this.disk == disk && this.job == job && CanUndo() && switchesBefore == Switches(disk)
      ensures moved == [] && backups == [] && updated == 0 && !committed
    {
      this.disk := disk;
      this.layout := layout;
      this.slug := slug;
      this.names := names;
      this.job := job;
      switchesBefore := Switches(disk);
      moved, backups, updated, committed := [], [], 0, false;
    }

    method MoveEntries() returns (ok: bool)
      requires CanUndo() && moved == [] && backups == [] && !committed && updated == 0
      modifies this`moved, disk
      ensures CanUndo() && old(disk.clock) <= disk.clock
      ensures if ok then moved == names else disk.FaultSince(old(disk.clock))
      ensures At(disk.tree, CONFIG_TMP) == At(old(disk.tree), CONFIG_TMP)
      ensures Room(layout, old(disk.tree)) ==> Room(layout, disk.tree)
    {
      for k := 0 to |names|
        invariant CanUndo() && moved == names[..k] && old(disk.clock) <= disk.clock
        invariant At(disk.tree, CONFIG_TMP) == At(old(disk.tree), CONFIG_TMP)
        invariant Room(layout, old(disk.tree)) ==> Room(layout, disk.tree)
      {
        ok := MoveEntry(names[k]);
        if !ok {
          return;
        }
      }
      ok := true;
    }

    method MoveEntry(n: string) returns (ok: bool)
      requires CanUndo() && backups == [] && !committed && moved + [n] <= names
      modifies this`moved, disk
      ensures CanUndo() && old(disk.clock) <= disk.clock
      ensures if ok then moved == old(moved) + [n] else disk.FaultSince(old(disk.clock))
      ensures At(disk.tree, CONFIG_TMP) == At(old(disk.tree), CONFIG_TMP)
      ensures Room(layout, old(disk.tree)) ==> Room(layout, disk.tree)
    {
      EntryMoved(job, disk.tree, moved, n);
      ok := disk.Rename(Source(slug) + [n], [n]);
      if ok {
        moved := moved + [n];
      }
    }

    /** Copies a task file aside and logs it. */
    method BackUp(path: Path) returns (ok: bool)
      requires CanUndo() && !committed
      requires IsActiveTask(job.before, path) && path !in Paths(backups)
      modifies this`backups, disk
      ensures CanUndo() && old(disk.clock) <= disk.clock
      ensures forall p :: !Scratch(layout, p) ==> At(disk.tree, p) == At(old(disk.tree), p)
      ensures ok ==> backups == old(backups) + [Backup(path, BackupPath(layout, |old(backups)|, path))]
      ensures Room(layout, old(disk.tree)) ==> Room(layout, disk.tree) && (ok || disk.FaultSince(old(disk.clock)))
    {
      var copy := BackupPath(layout, |backups|, path);
      ghost var t := disk.tree;
      NotYetTouched(job, t, moved, backups, path);
      if Room(layout, t) { RoomForCopy(layout, t, |backups|, path); }
      ok := disk.CopyFile(path, copy);
      CopyWritten(job, t, disk.tree, moved, backups, path);
      if ok {
        backups := backups + [Backup(path, copy)];
      }
    }

    /** Overwrites a logged task file; a failed write may leave anything in it. */
    method Overwrite(path: Path, text: string) returns (ok: bool)
      requires CanUndo() && path in Paths(backups)
      modifies disk
      ensures CanUndo() && old(disk.clock) <= disk.clock
      ensures ok ==> disk.tree == old(disk.tree)[path := File(text)]
      ensures !ok ==> disk.FaultSince(old(disk.clock))
      ensures Room(layout, old(disk.tree)) ==> Room(layout, disk.tree)
    {
      ghost var t := disk.tree;
      assert IsActiveTask(job.before, path);
      InActiveDirIs(path);
      CopiesElsewhere(job, t, backups, path);
      CanOverwrite(job, t, moved, backups, committed, path);
      ok := disk.WriteFile(path, text);
      WriteKeeps(job, t, disk.tree, moved, backups, committed, path);
      if Room(layout, t) { RoomWrites(layout, t, disk.tree, path); }
    }

    /** Backs up, then overwrites. */
    method ReplaceTask(path: Path, text: string) returns (ok: bool)
      requires CanUndo() && !committed
      requires IsActiveTask(job.before, path) && path !in Paths(backups)
      modifies this`backups, disk
      ensures CanUndo() && old(disk.clock) <= disk.clock
      ensures ok ==> At(disk.tree, path) == Some(File(text))
      ensures ok ==> forall p :: p != path && !Scratch(layout, p) ==> At(disk.tree, p) == At(old(disk.tree), p)
      ensures ok ==> Paths(backups) == Paths(old(backups)) + {path}
      ensures Room(layout, old(disk.tree)) ==> Room(layout, disk.tree) && (ok || disk.FaultSince(old(disk.clock)))
    {
      ghost var log := backups;
      ok := BackUp(path);
      if ok {
        LoggedPaths(log, backups[|backups| - 1]);
        ok := Overwrite(path, text);
      }
    }

    /** One round of the loop over the active task files: back up, then rewrite in place. */
    method RewriteTask(path: Path) returns (ok: bool)
      requires CanUndo() && !committed
      requires IsActiveTask(job.before, path) && path !in Paths(backups)
      modifies this`backups, this`updated, disk
      ensures CanUndo() && old(disk.clock) <= disk.clock
      ensures ok ==> IsRewritten(job, disk.tree, path)
      ensures ok ==> forall p :: p != path && !Scratch(layout, p) ==> At(disk.tree, p) == At(old(disk.tree), p)
      ensures ok ==> Paths(backups) == Paths(old(backups)) + if path in ChangedTasks(job) then {path} else {}
      ensures ok ==> updated == old(updated) + if path in ChangedTasks(job) then 1 else 0
      ensures Room(layout, old(disk.tree)) ==> Room(layout, disk.tree) && (ok || disk.FaultSince(old(disk.clock)))
    {
      NeedsRewrite(job, disk.tree, moved, backups, path);
      var before := disk.ReadFile(path);
      if before.None? {
        return false;
      }
      var after := Rewrite(layout, slug, before.value);
      if after == before.value {
        return true;
      }
      ok := ReplaceTask(path, after);
      if ok {
        updated := updated + 1;
      }
    }

    method RewriteTasks() returns (ok: bool)
      requires CanUndo() && !committed && moved == names && backups == [] && updated == 0
      modifies this`backups, this`updated, disk
      ensures CanUndo() && old(disk.clock) <= disk.clock
      ensures ok ==> TasksRewritten(job, disk.tree) && updated == |ChangedTasks(job)|
      ensures ok ==> At(disk.tree, CONFIG_TMP) == At(old(disk.tree), CONFIG_TMP)
      ensures Room(layout, old(disk.tree)) && Startable(job) ==>
        Room(layout, disk.tree) && (ok || disk.FaultSince(old(disk.clock)))
    {
      SameActiveTasks(job, disk.tree, moved);
      if Startable(job) { SameActiveDirs(job, disk.tree, moved); }
      var files := ActiveTaskFiles(disk);
      if files.None? {
        return false;
      }
      ok := RewriteFiles(files.value);
    }

    method RewriteNext(path: Path, ghost done: set<Path>) returns (ok: bool)
      requires CanUndo() && !committed
      requires IsActiveTask(job.before, path) && path !in done
      requires Progress(job, disk.tree, backups, done) && updated == |Paths(backups)|
      modifies this`backups, this`updated, disk
      ensures CanUndo() && old(disk.clock) <= disk.clock
      ensures ok ==> Progress(job, disk.tree, backups, done + {path}) && updated == |Paths(backups)|
      ensures ok ==> At(disk.tree, CONFIG_TMP) == At(old(disk.tree), CONFIG_TMP)
      ensures Room(layout, old(disk.tree)) ==> Room(layout, disk.tree) && (ok || disk.FaultSince(old(disk.clock)))
    {
      ghost var t, log := disk.tree, backups;
      assert path !in Paths(log);
      InActiveDirIs(path);
      ok := RewriteTask(path);
      if ok {
        ProgressStep(job, t, disk.tree, log, backups, done, path);
        ProgressCounts(job, t, log, backups, done, path);
      }
    }

    method RewriteFiles(files: seq<Path>) returns (ok: bool)
      requires CanUndo() && !committed && backups == [] && updated == 0
      requires NoRepeat(files) && forall p :: p in files <==> IsActiveTask(job.before, p)
      modifies this`backups, this`updated, disk
      ensures CanUndo() && old(disk.clock) <= disk.clock
      ensures ok ==> TasksRewritten(job, disk.tree) && updated == |ChangedTasks(job)|
      ensures ok ==> At(disk.tree, CONFIG_TMP) == At(old(disk.tree), CONFIG_TMP)
      ensures Room(layout, old(disk.tree)) ==> Room(layout, disk.tree) && (ok || disk.FaultSince(old(disk.clock)))
    {
      ghost var done: set<Path> := {};
      for k := 0 to |files|
        invariant CanUndo() && old(disk.clock) <= disk.clock
        invariant At(disk.tree, CONFIG_TMP) == At(old(disk.tree), CONFIG_TMP)
        invariant Progress(job, disk.tree, backups, done) && updated == |Paths(backups)|
        invariant Covered(files, k, done)
        invariant Room(layout, old(disk.tree)) ==> Room(layout, disk.tree)
      {
        var path := files[k];
        assert path in files && path !in done;
        ok := RewriteNext(path, done);
        if !ok {
          return;
        }
        CoverStep(files, k, done);
        done := done + {path};
      }
      AllCovered(files, done);
      AllDone(job, disk.tree, backups, done);
      ok := true;
    }

    /** Switches the config through a temporary file, then drops a workspace directory that is already empty. */
    method SwitchConfig() returns (ok: bool, ghost config: string)
      requires CanUndo() && !committed && moved == names && TasksRewritten(job, disk.tree)
      requires At(disk.tree, CONFIG_TMP) == At(job.before, CONFIG_TMP)
      modifies this`committed, disk
      ensures CanUndo() && old(disk.clock) <= disk.clock
      ensures ok ==> committed && SwitchedConfig(job) == Some(File(config))
      ensures ok && WORKSPACE in disk.tree ==> Settled(job, disk.tree, config) && !SlugIsReadmeOnly(job)
      ensures ok && !SlugIsReadmeOnly(job) ==> IsDir(disk.tree, WORKSPACE)
      ensures Startable(job) ==> committed || disk.FaultSince(old(disk.clock))
      ensures Room(layout, old(disk.tree)) && Startable(job) ==>
        (if ok then Room(layout, disk.tree) else disk.FaultSince(old(disk.clock)))
    {
      config := "";
      var edited := EditedConfig();
      if edited.None? {
        return false, config;
      }
      config := edited.value;
      ok := Commit(edited.value);
      if ok {
        ok := DropWorkspaceEarly(config);
      }
    }

    /** The removal at the end of the config switch: the source is still there. */
    method DropWorkspaceEarly(ghost config: string) returns (ok: bool)
      requires CanUndo() && committed && moved == names && Settled(job, disk.tree, config)
      modifies disk
      ensures CanUndo() && old(disk.clock) <= disk.clock
      ensures ok && WORKSPACE in disk.tree ==> Settled(job, disk.tree, config) && !SlugIsReadmeOnly(job)
      ensures ok && !SlugIsReadmeOnly(job) ==> IsDir(disk.tree, WORKSPACE)
      ensures Room(layout, old(disk.tree)) ==> if ok then Room(layout, disk.tree) else disk.FaultSince(old(disk.clock))
    {
      WorkspaceSettled(job, disk.tree, config);
      ok := true;
      if WORKSPACE in disk.tree {
        ok := DropEmptyWorkspace();
      }
    }

    method EditedConfig() returns (r: Option<string>)
      requires CanUndo() && !committed
      modifies disk`clock
      ensures old(disk.clock) <= disk.clock
      ensures r.Some? ==> SwitchedConfig(job) == Some(File(r.value))
      ensures r.None? && SwitchedConfig(job) != None ==> disk.FaultSince(old(disk.clock))
    {
      ConfigStands(job, disk.tree, moved, backups);
      if CONFIG !in disk.tree {
        return None;
      }
      var text := disk.ReadFile(CONFIG);
      if text.None? {
        return None;
      }
      r := layout.withRootMode(text.value);
    }

    method Commit(config: string) returns (ok: bool)
      requires CanUndo() && !committed && moved == names && TasksRewritten(job, disk.tree)
      requires At(disk.tree, CONFIG_TMP) == At(job.before, CONFIG_TMP) && SwitchedConfig(job) == Some(File(config))
      modifies this`committed, disk
      ensures CanUndo() && old(disk.clock) <= disk.clock
      ensures ok == committed
      ensures ok ==> Settled(job, disk.tree, config)
      ensures !ok && !IsDir(job.before, CONFIG_TMP) ==> disk.FaultSince(old(disk.clock))
      ensures Room(layout, old(disk.tree)) ==> Room(layout, disk.tree)
    {
      ok := WriteConfigTmp(config);
      if ok {
        ok := RenameConfig(config);
      }
    }

    method RenameConfig(config: string) returns (ok: bool)
      requires CanUndo() && !committed && moved == names && TasksRewritten(job, disk.tree)
      requires At(disk.tree, CONFIG_TMP) == SwitchedConfig(job) == Some(File(config)) && !IsDir(job.before, CONFIG_TMP)
      modifies this`committed, disk
      ensures CanUndo() && old(disk.clock) <= disk.clock
      ensures ok == committed
      ensures if ok then Settled(job, disk.tree, config) else disk.FaultSince(old(disk.clock))
      ensures Room(layout, old(disk.tree)) ==> Room(layout, disk.tree)
    {
      ConfigRenamed(job, disk.tree, backups, config);
      ok := disk.Rename(CONFIG_TMP, CONFIG);
      if ok {
        committed := true;
      }
    }

    method WriteConfigTmp(text: string) returns (ok: bool)
      requires CanUndo() && !committed && At(disk.tree, CONFIG_TMP) == At(job.before, CONFIG_TMP)
      modifies disk
      ensures CanUndo() && old(disk.clock) <= disk.clock
      ensures ok ==> !IsDir(job.before, CONFIG_TMP) && At(disk.tree, CONFIG_TMP) == Some(File(text))
      ensures TasksRewritten(job, old(disk.tree)) ==> TasksRewritten(job, disk.tree)
      ensures !ok && !IsDir(job.before, CONFIG_TMP) && SwitchedConfig(job) != None ==> disk.FaultSince(old(disk.clock))
      ensures Room(layout, old(disk.tree)) ==> Room(layout, disk.tree)
    {
      if !IsDir(job.before, CONFIG_TMP) && SwitchedConfig(job) != None {
        CanSwitch(job, disk.tree, moved, backups);
      }
      ghost var t := disk.tree;
      ok := disk.WriteFile(CONFIG_TMP, text);
      TmpWritten(job, t, disk.tree, moved, backups);
    }

    /** Removes the workspace directory if nothing but a readme is left in it. */
    method DropEmptyWorkspace() returns (ok: bool)
      requires CanUndo() && committed && moved == names
      modifies disk
      ensures CanUndo() && old(disk.clock) <= disk.clock
      ensures ok ==> WORKSPACE in old(disk.tree)
      ensures ok ==> disk.tree == if ChildNames(old(disk.tree), WORKSPACE) <= {"README.md"}
                                  then Without(old(disk.tree), WORKSPACE, {}) else old(disk.tree)
      ensures !ok && IsDir(old(disk.tree), WORKSPACE) ==> disk.FaultSince(old(disk.clock))
      ensures ok && Room(layout, old(disk.tree)) ==> Room(layout, disk.tree)
    {
      var entries := disk.ReadDir(WORKSPACE);
      if entries.None? {
        return false;
      }
      var remaining := Where(entries.value, NotReadme);
      WhereHolds(entries.value, NotReadme);
      forall n ensures n in ChildNames(disk.tree, WORKSPACE) <==> n in entries.value {
        ChildNamesAt(disk.tree, WORKSPACE, n);
      }
      assert remaining == [] <==> ChildNames(disk.tree, WORKSPACE) <= {"README.md"} by {
        if remaining == [] {
          forall n | n in ChildNames(disk.tree, WORKSPACE) ensures n == "README.md" {
            assert n !in remaining;
          }
        } else {
          assert remaining[0] in remaining;
        }
      }
      ok := true;
      if |remaining| == 0 {
        forall kept: set<Path> ensures Recoverable(job, Without(disk.tree, WORKSPACE, kept), names, backups, true) {
          RemovalKeeps(job, disk.tree, backups, WORKSPACE, kept);
        }
        if Room(layout, disk.tree) { RoomRemoves(layout, disk.tree, WORKSPACE); }
        ok := disk.Remove(WORKSPACE);
      }
    }

    /** The end of the try block: the emptied source goes, and with it an otherwise empty workspace directory. */
    method RemoveSource(ghost config: string) returns (ok: bool)
      requires CanUndo() && committed && moved == names
      requires WORKSPACE in disk.tree ==> Settled(job, disk.tree, config) && !SlugIsReadmeOnly(job)
      modifies disk
      ensures CanUndo() && old(disk.clock) <= disk.clock
      ensures ok ==> Finished(job, disk.tree, config) && !SlugIsReadmeOnly(job)
      ensures IsDir(old(disk.tree), WORKSPACE) && Room(layout, old(disk.tree)) ==>
        (if ok then Room(layout, disk.tree) else disk.FaultSince(old(disk.clock)))
    {
      ghost var t := disk.tree;
      forall kept: set<Path> ensures Recoverable(job, Without(t, Source(slug), kept), names, backups, true) {
        RemovalKeeps(job, t, backups, Source(slug), kept);
      }
      if Room(layout, t) { RoomRemoves(layout, t, Source(slug)); }
      ok := disk.Remove(Source(slug));
      if ok {
        assert IsDir(t, WORKSPACE) ==> IsDir(disk.tree, WORKSPACE);
        ok := DropEmptyWorkspace();
        if ok {
          RemovedWorkspace(job, t, config);
        }
      }
    }

    /** First half of the catch block: every logged task file gets its backup copied back. */
    method RestoreTasks() returns (ok: bool)
      requires CanUndo()
      modifies disk
      ensures old(disk.clock) <= disk.clock
      ensures ok ==> Recoverable(job, disk.tree, moved, [], committed)
      ensures Switches(disk) == old(Switches(disk))
      ensures !ok ==> disk.FaultSince(old(disk.clock))
    {
      for i := |backups| downto 0
        invariant old(disk.clock) <= disk.clock
        invariant Restored(job, disk.tree, moved, backups, i, committed) && Switches(disk) == old(Switches(disk))
      {
        CanRestore(job, disk.tree, moved, Paths(backups[..i + 1]), backups, committed, i);
        RestoreStep(job, disk.tree, moved, backups, i, committed);
        ok := disk.CopyFile(backups[i].copy, backups[i].path);
        if !ok {
          return;
        }
      }
      ok := true;
    }

    /** Second half of the catch block: every moved entry goes back. */
    method UnmoveEntries() returns (ok: bool)
      requires Recoverable(job, disk.tree, moved, [], committed) && job.slug == slug
      modifies disk
      ensures old(disk.clock) <= disk.clock
      ensures ok ==> Recoverable(job, disk.tree, [], [], committed)
      ensures Switches(disk) == old(Switches(disk))
      ensures ok && moved != [] ==> IsDir(disk.tree, Source(slug))
      ensures !ok ==> disk.FaultSince(old(disk.clock))
    {
      for i := |moved| downto 0
        invariant old(disk.clock) <= disk.clock
        invariant Recoverable(job, disk.tree, moved[..i], [], committed) && Switches(disk) == old(Switches(disk))
        invariant i < |moved| ==> IsDir(disk.tree, Source(slug))
      {
        assert moved[..i + 1] == moved[..i] + [moved[i]];
        ok := UnmoveEntry(moved[i], moved[..i]);
        if !ok {
          return;
        }
      }
      assert moved[..0] == [];
      ok := true;
    }

    method UnmoveEntry(n: string, ghost still: seq<string>) returns (ok: bool)
      requires Recoverable(job, disk.tree, still + [n], [], committed) && job.slug == slug
      modifies disk
      ensures old(disk.clock) <= disk.clock
      ensures ok ==> Recoverable(job, disk.tree, still, [], committed) && IsDir(disk.tree, Source(slug))
      ensures Switches(disk) == old(Switches(disk))
      ensures !ok ==> disk.FaultSince(old(disk.clock))
    {
      MkdirKeeps(job, disk.tree, still + [n], committed);
      ok := disk.MakeDirs(Source(slug));
      if ok {
        EntryUnmoved(job, disk.tree, still, committed, n);
        if [n] in disk.tree {
          ok := disk.Rename([n], Source(slug) + [n]);
        }
      }
    }

    /** The try block. */
    method Attempt() returns (ok: bool, ghost config: string)
      requires CanUndo() && moved == [] && backups == [] && updated == 0 && !committed
      requires At(disk.tree, CONFIG_TMP) == At(job.before, CONFIG_TMP)
      modifies this, disk
      ensures CanUndo() && old(disk.clock) <= disk.clock && (committed ==> moved == names)
      ensures ok ==> SwitchedConfig(job) == Some(File(config)) && Finished(job, disk.tree, config)
      ensures ok ==> moved == names && updated == |ChangedTasks(job)| && !SlugIsReadmeOnly(job)
      ensures Room(layout, old(disk.tree)) && Startable(job) ==> committed || disk.FaultSince(old(disk.clock))
      ensures Room(layout, old(disk.tree)) && Ready(job) ==>
        (if ok then Room(layout, disk.tree) else disk.FaultSince(old(disk.clock)))
    {
      config := "";
      ok := MoveEntries();
      if ok {
        ok := RewriteTasks();
        if ok {
          ok, config := SwitchConfig();
          if ok {
            ok := RemoveSource(config);
          }
        }
      }
    }

    /** The catch block. */
    method Rollback() returns (ok: bool)
      requires CanUndo()
      modifies disk
      ensures old(disk.clock) <= disk.clock
      ensures ok ==> Undone(job, disk.tree, committed)
      ensures Switches(disk) == old(Switches(disk))
      ensures ok && committed && moved != [] ==> IsDir(disk.tree, Source(slug))
      ensures !ok ==> disk.FaultSince(old(disk.clock))
    {
      ok := RestoreTasks();
      if ok {
        ok := UnmoveEntries();
      }
    }
  }

  /** Backup directory, try block, catch block and manifest. */
  method Execute(disk: Disk, layout: Layout, slug: string, names: seq<string>, ghost job: Job)
    returns (outcome: Outcome)
    requires job == Job(disk.tree, layout, slug, names) && Sound(job)
    modifies disk
    ensures !outcome.Rejected?
    ensures outcome.NotStarted? ==> Untouched(job, disk.tree)
    ensures outcome.Migrated? || outcome.ManifestLost? ==> Succeeded(job, disk.tree)
    ensures outcome.Migrated? ==>
      outcome.moved == |ChildNames(job.before, Source(slug))| && outcome.updated == |ChangedTasks(job)|
    ensures outcome.RolledBack? ==> Undone(job, disk.tree, outcome.committed)
    ensures outcome.RolledBack? ==> (outcome.committed <==> Switches(disk) > old(Switches(disk)))
    ensures outcome.RolledBack? && outcome.committed && job.names != [] ==> IsDir(disk.tree, Source(slug))
    ensures outcome.RollbackBroken? ==> old(disk.clock) <= outcome.caughtAt && disk.FaultSince(outcome.caughtAt)
    ensures Ready(job) ==> outcome.Migrated? || disk.FaultSince(old(disk.clock))
    ensures Startable(job) && SlugIsReadmeOnly(job) ==> outcome == RolledBack(true) || disk.FaultSince(old(disk.clock))
  {
    var ok := disk.MakeDirs(TaskBackupRoot(layout));
    ScratchDirs(job, job.before, disk.tree);
    if Startable(job) { RoomMade(layout, job.before); }
    outcome := NotStarted;
    if ok {
      outcome := RunTransaction(disk, layout, slug, names, job);
    }
  }

  method RunTransaction(disk: Disk, layout: Layout, slug: string, names: seq<string>, ghost job: Job)
    returns (outcome: Outcome)
    requires job.layout == layout && job.slug == slug && job.names == names
    requires Sound(job) && Untouched(job, disk.tree)
    modifies disk
    ensures !outcome.Rejected? && !outcome.NotStarted?
    ensures outcome.Migrated? || outcome.ManifestLost? ==> Succeeded(job, disk.tree)
    ensures outcome.Migrated? ==>
      outcome.moved == |ChildNames(job.before, Source(slug))| && outcome.updated == |ChangedTasks(job)|
    ensures outcome.RolledBack? ==> Undone(job, disk.tree, outcome.committed)
    ensures outcome.RolledBack? ==> (outcome.committed <==> Switches(disk) > old(Switches(disk)))
    ensures outcome.RolledBack? && outcome.committed && job.names != [] ==> IsDir(disk.tree, Source(slug))
    ensures outcome.RollbackBroken? ==> old(disk.clock) <= outcome.caughtAt && disk.FaultSince(outcome.caughtAt)
    ensures Room(layout, old(disk.tree)) && Ready(job) ==> outcome.Migrated? || disk.FaultSince(old(disk.clock))
    ensures Room(layout, old(disk.tree)) && Startable(job) && SlugIsReadmeOnly(job) ==>
      outcome == RolledBack(true) || disk.FaultSince(old(disk.clock))
  {
    ReadyToStart(job, disk.tree);
    assert CONFIG_TMP[0] == "fcop" && !Scratch(layout, CONFIG_TMP);
    var run := new Transaction(disk, layout, slug, names, job);
    ghost var config;
    var ok;
    ok, config := run.Attempt();
    if !ok {
      var caughtAt := disk.clock;
      ok := run.Rollback();
      outcome := if ok then RolledBack(run.committed) else RollbackBroken(run.committed, caughtAt);
    } else {
      NamesCounted(job);
      ghost var t := disk.tree;
      if Room(layout, t) { RoomForCopy(layout, t, 0, CONFIG); }
      ok := disk.WriteFile(Manifest(layout), layout.manifest);
      ManifestKeeps(job, t, disk.tree, config);
      outcome := if ok then Migrated(|run.moved|, run.updated) else ManifestLost;
    }
  }

  method Migrate(disk: Disk, layout: Layout) returns (outcome: Outcome, ghost job: Job)
    requires WellFormed(disk.tree)
    modifies disk
    ensures job.before == old(disk.tree) && job.layout == layout
    ensures if outcome.Rejected? then disk.tree == old(disk.tree) else Sound(job)
    ensures outcome.NotStarted? ==> Untouched(job, disk.tree)
    ensures outcome.Migrated? || outcome.ManifestLost? ==> Succeeded(job, disk.tree)
    ensures outcome.Migrated? ==>
      outcome.moved == |ChildNames(job.before, Source(job.slug))| && outcome.updated == |ChangedTasks(job)|
    ensures outcome.RolledBack? ==> Undone(job, disk.tree, outcome.committed)
    ensures outcome.RolledBack? ==> (outcome.committed <==> Switches(disk) > old(Switches(disk)))
    ensures outcome.RolledBack? && outcome.committed && job.names != [] ==> IsDir(disk.tree, Source(job.slug))
    ensures outcome.RollbackBroken? ==> old(disk.clock) <= outcome.caughtAt && disk.FaultSince(outcome.caughtAt)
    ensures !outcome.Rejected? && Ready(job) ==> outcome.Migrated? || disk.FaultSince(old(disk.clock))
    ensures !outcome.Rejected? && Startable(job) && SlugIsReadmeOnly(job) ==>
      outcome == RolledBack(true) || disk.FaultSince(old(disk.clock))
  {
    var plan := PlanMigration(disk, layout);
    if plan.Refused? {
      return Rejected(plan.why), Job(disk.tree, layout, "", []);
    }
    job := Job(disk.tree, layout, plan.slug, plan.names);
    outcome := Execute(disk, layout, plan.slug, plan.names, job);
  }

  // ----- what the outcomes mean for a project

  /** After a rollback every path under a moved entry and every active task file is back as it was;
      the config is as it was exactly when the fault struck before the config was switched. */
  lemma RollbackRestores(j: Job, t: Tree, committed: bool, p: Path)
    requires Sound(j) && Undone(j, t, committed)
    ensures |p| > 2 && Source(j.slug) <= p ==> At(t, p) == At(j.before, p)
    ensures p != [] && p[0] in j.names ==> At(t, p) == None
    ensures IsActiveTask(j.before, p) ==> At(t, p) == At(j.before, p)
    ensures At(t, CONFIG) == if committed then SwitchedConfig(j) else At(j.before, CONFIG)
  {
    if p != [] && p[0] in j.names {
      NamesAreFree(j, p[0]);
      assert [p[0]] <= p;
    }
    if IsActiveTask(j.before, p) {
      InActiveDirIs(p);
    }
    assert |CONFIG[1]| != |CONFIG_TMP[1]|;
  }

  /** Where a file of the old tree is found after a migration. */
  function Destination(j: Job, p: Path): Path {
    if |p| > 2 && Source(j.slug) <= p then p[2..] else p
  }

  /** The workspace readme goes when the workspace directory is left with nothing else. */
  predicate LostReadme(j: Job, p: Path) {
    README <= p && !(Source(j.slug) <= p) && ChildNames(j.before, WORKSPACE) <= {j.slug, "README.md"}
  }

  predicate ProjectFile(j: Job, p: Path) {
    IsFile(j.before, p) && !Scratch(j.layout, p) && p != CONFIG && p != CONFIG_TMP
  }

  /** No project file is lost: each one is at its destination, with only active tasks rewritten. */
  lemma NothingLost(j: Job, t: Tree, config: string, p: Path)
    requires Sound(j) && Finished(j, t, config) && ProjectFile(j, p)
    ensures !LostReadme(j, p) ==>
      At(t, Destination(j, p)) == Some(if IsActiveTask(j.before, p)
                                       then File(Rewrite(j.layout, j.slug, j.before[p].text)) else j.before[p])
    ensures LostReadme(j, p) ==> At(t, p) == None
  {
    BelowSource(j, p);
    if Source(j.slug) <= p {
      EntryAbove(j, p);
      var q := p[2..];
      NamesAreFree(j, q[0]);
      assert Source(j.slug) + q == p;
      assert !InActiveDir(q) by { if InActiveDir(q) { InActiveDirIs(q); } }
      assert !InActiveDir(p) by { if InActiveDir(p) { InActiveDirIs(p); } }
    } else {
      FreeOfNames(j, p);
      if WORKSPACE <= p {
        AncestorsExist(j.before, p[..2], p);
        ChildNamesAt(j.before, WORKSPACE, p[1]);
        assert p[..2] == WORKSPACE + [p[1]];
        assert p[1] in ChildNames(j.before, WORKSPACE) && p[1] != j.slug;
        assert !InActiveDir(p) by { if InActiveDir(p) { InActiveDirIs(p); } }
      }
    }
  }

  lemma EntryAbove(j: Job, p: Path)
    requires Sound(j) && p in j.before && |p| > 2 && Source(j.slug) <= p
    ensures p[2] in j.names
  {
    AncestorsExist(j.before, p[..3], p);
    assert p[..3] == Source(j.slug) + [p[2]];
  }

  lemma FreeOfNames(j: Job, p: Path)
    requires Sound(j) && p in j.before
    ensures p != [] ==> p[0] !in j.names
  {
    if p != [] {
      assert [p[0]] <= p;
      if p[0] in j.names { NamesAreFree(j, p[0]); }
    }
  }

  lemma BelowSource(j: Job, p: Path)
    requires Sound(j) && IsFile(j.before, p)
    ensures Source(j.slug) <= p ==> |p| > 2
    ensures WORKSPACE <= p ==> |p| > 1
  {
    WorkspaceIsDir(j, []);
    assert Source(j.slug) <= p && |p| == 2 ==> p == Source(j.slug);
    assert WORKSPACE <= p && |p| == 1 ==> p == WORKSPACE;
  }

  /** No two project files end up at one path. */
  lemma DestinationsApart(j: Job, p: Path, q: Path)
    requires Sound(j) && IsFile(j.before, p) && IsFile(j.before, q) && p != q
    ensures Destination(j, p) != Destination(j, q)
  {
    BelowSource(j, p);
    BelowSource(j, q);
    FreeOfNames(j, p);
    FreeOfNames(j, q);
    if Source(j.slug) <= p { EntryAbove(j, p); assert p == Source(j.slug) + p[2..]; }
    if Source(j.slug) <= q { EntryAbove(j, q); assert q == Source(j.slug) + q[2..]; }
  }

  /** No file appears from nowhere: each one is the destination of a file of the old tree. */
  lemma NothingInvented(j: Job, t: Tree, config: string, q: Path) returns (p: Path)
    requires Sound(j) && Finished(j, t, config)
    requires IsFile(t, q) && !Scratch(j.layout, q) && q != CONFIG
    ensures IsFile(j.before, p) && Destination(j, p) == q
  {
    assert At(t, q) == FinalAt(j, config, q) == SettledAt(j, config, q);
    if IsActiveTask(j.before, q) {
      InActiveDirIs(q);
      p := q;
    } else if q != [] && q[0] in j.names {
      p := Source(j.slug) + q;
    } else {
      p := q;
    }
  }

  /** A project whose only workspace is called README.md, with nothing else beside it. */
  function ReadmeTree(): Tree {
    map[[] := Dir, WORKSPACE := Dir, README := Dir, ["fcop"] := Dir, CONFIG := File("")]
  }

  lemma ReadmeTreeIs(p: Path)
    ensures At(ReadmeTree(), p) ==
      if p == CONFIG then Some(File(""))
      else if p == [] || p == WORKSPACE || p == README || p == ["fcop"] then Some(Dir)
      else None
  {
    assert CONFIG[0] != README[0] && CONFIG[0] != WORKSPACE[0];
  }

  lemma ReadmeTreeIsWellFormed()
    ensures WellFormed(ReadmeTree())
  {
    var t := ReadmeTree();
    ReadmeTreeIs([]);
    forall p | p in t && p != [] ensures IsDir(t, Parent(p)) {
      ReadmeTreeIs(p);
      ReadmeTreeIs(Parent(p));
      assert Parent(WORKSPACE) == [] && Parent(["fcop"]) == [];
      assert Parent(README) == WORKSPACE && Parent(CONFIG) == ["fcop"];
    }
  }

  lemma OnlyReadme()
    ensures ChildNames(ReadmeTree(), WORKSPACE) == {"README.md"}
    ensures forall n :: IsSlug(ReadmeTree(), n) <==> n == "README.md"
    ensures forall n :: Source("README.md") + [n] !in ReadmeTree()
  {
    var t := ReadmeTree();
    assert !("." <= "README.md") by { assert "README.md"[0] != '.'; }
    forall n ensures (n in ChildNames(t, WORKSPACE) <==> n == "README.md") && (IsSlug(t, n) <==> n == "README.md") {
      ChildNamesAt(t, WORKSPACE, n);
      var p := WORKSPACE + [n];
      ReadmeTreeIs(p);
      assert p[0] == "workspace" && p[1] == n && README[1] == "README.md" && CONFIG[0] != "workspace";
      assert p == README <==> n == "README.md";
    }
    forall n ensures Source("README.md") + [n] !in t {
      ReadmeTreeIs(Source("README.md") + [n]);
      assert |Source("README.md") + [n]| == 3;
    }
  }

  lemma NothingInTheWay(p: Path)
    requires p != [] && (p[0] == ".codeflowmu" || |p| == 3 || p == CONFIG_TMP || p == ["fcop", "tasks"])
    ensures p !in ReadmeTree()
  {
    ReadmeTreeIs(p);
    assert |CONFIG[1]| != |CONFIG_TMP[1]| && |CONFIG[1]| != |["fcop", "tasks"][1]|;
  }

  /** Such a project can be planned and started, so without a fault it is switched and then rolled back. */
  lemma ReadmeWorkspace(l: Layout) returns (j: Job)
    requires l.withRootMode("") != None
    ensures Sound(j) && Startable(j) && SlugIsReadmeOnly(j) && j.layout == l
  {
    j := Job(ReadmeTree(), l, "README.md", []);
    ReadmeTreeIsWellFormed();
    OnlyReadme();
    ReadmeTreeIs(CONFIG);
    ReadmeTreeIs([]);
    NothingInTheWay(CONFIG_TMP);
    var root := TaskBackupRoot(l);
    forall i | 0 <= i <= |root| ensures !IsFile(ReadmeTree(), root[..i]) {
      if i > 0 { NothingInTheWay(root[..i]); }
    }
    forall n ensures !IsDir(ReadmeTree(), root + [n]) { NothingInTheWay(root + [n]); }
    NothingInTheWay(Manifest(l));
    forall d | d in ACTIVE_DIRS ensures !IsFile(ReadmeTree(), d) { NothingInTheWay(d); }
  }
}
