/** The mutation kernel: the gate that journals accepted calls, and what it guarantees about a task's stage. */
module Kernel {
  import opened Text
  import opened Lifecycle
  import Frontmatter

  // ----- the gate

  const UI := {"CLICK", "TYPE", "EDIT_CODE"}
  const INFERENCE := {"INFERENCE", "SEARCH", "MCP_TOOL"}
  const FILED := {"WRITE_REPORT", "WRITE_ISSUE", "WRITE_REVIEW"}
  const MODES := {"native", "gemini", "mcp"}

  /** MODE_ALLOWED_SYSCALLS */
  function Allowed(mode: string): set<string> {
    if mode == "native" then UI + {"JOURNAL_APPEND"} else INFERENCE + LIFECYCLE + FILED
  }

  predicate StartsWith(s: string, head: string) { head <= s }

  /** The calls _check_caller lets through. */
  predicate CallerMay(syscall: string, driver: string, caller: string) {
    if driver == "native" then !StartsWith(caller, "gemini")
    else StartsWith(caller, "cursor") ==> syscall == "INFERENCE" || syscall == "MCP_TOOL"
  }

  datatype Refusal = KernelClosed | PayloadShape | NoSyscall | UnknownDriver | SyscallRefused | ModeRefused
                   | CallerRefused | NoTask | Forbidden

  datatype Request = Request(task: string, syscall: string, payloadIsDict: bool, driver: string, caller: string)

  datatype Entry = Entry(task: string, syscall: string, caller: string, driver: string, kernel: string,
                         before: Option<Stage>, expected: Option<Stage>)

  datatype Reply = Accepted(entry: Entry) | Refused(why: Refusal)

  // ----- where a task's files are

  /** The file names below each stage directory. */
  type Folders = map<Stage, set<string>>

  function At(fs: Folders, s: Stage): set<string> { if s in fs then fs[s] else {} }

  /** The pattern "<task>*.md". */
  predicate Matches(task: string, file: string) {
    |task| + 3 <= |file| && task <= file && EndsWith(file, ".md")
  }

  predicate Holds(fs: Folders, s: Stage, task: string) { exists f :: f in At(fs, s) && Matches(task, f) }

  const ORDER := [Inbox, Active, Review, Done, Archive, History]

  function Place(s: Stage): nat {
    match s
    case Inbox => 0
    case Active => 1
    case Review => 2
    case Done => 3
    case Archive => 4
    case History => 5
  }

  /** s is the first stage, in the order of the directories, that holds a file of the task. */
  ghost predicate Resolves(fs: Folders, task: string, s: Option<Stage>) {
    match s
    case Some(a) => Holds(fs, a, task) && forall b :: Place(b) < Place(a) ==> !Holds(fs, b, task)
    case None => forall b :: !Holds(fs, b, task)
  }

  /** _resolve_task_stage */
  method ResolveTaskStage(fs: Folders, task: string) returns (s: Option<Stage>)
    ensures Resolves(fs, task, s)
  {
    var i := 0;
    while i < |ORDER|
      invariant 0 <= i <= |ORDER|
      invariant forall b :: Place(b) < i ==> !Holds(fs, b, task)
    {
      assert ORDER[i] == Inbox || i > 0;
      if Holds(fs, ORDER[i], task) {
        return Some(ORDER[i]);
      }
      i := i + 1;
    }
    assert forall b :: Place(b) < |ORDER|;
    return None;
  }

  lemma ResolvesOnce(fs: Folders, task: string, s: Option<Stage>, t: Option<Stage>)
    requires Resolves(fs, task, s) && Resolves(fs, task, t)
    ensures s == t
  {
    if s.Some? && t.Some? {
      assert Place(s.value) == Place(t.value);
    }
  }

  // ----- what the journal may hold

  /** The request fields as the kernel reads them. */
  function Call(q: Request): string { Upper(Frontmatter.Strip(q.syscall)) }

  function Driver(q: Request): string { Norm(q.driver) }

  /** No check of _validate_runtime_request fails. */
  predicate Admissible(mode: string, closed: bool, q: Request) {
    && !closed && q.payloadIsDict && Call(q) != "" && Driver(q) in MODES
    && Call(q) in Allowed(Driver(q))
    && (mode == "mcp" || mode == Driver(q))
    && CallerMay(Call(q), Driver(q), q.caller)
    && (Call(q) in LIFECYCLE ==> q.task != "")
  }

  /** The transition check: skipped for a task without files and for the target inbox. */
  predicate Permitted(before: Option<Stage>, expected: Option<Stage>) {
    before.Some? && expected.Some? && expected != Some(Inbox) ==>
      before == expected || Legal(before.value, expected.value)
  }

  ghost predicate Lawful(mode: string, e: Entry) {
    && e.kernel == mode && e.driver in MODES && e.syscall in Allowed(e.driver)
    && (mode == "mcp" || mode == e.driver)
    && CallerMay(e.syscall, e.driver, e.caller)
    && e.expected == (if e.syscall in LIFECYCLE then Some(Target(e.syscall)) else None)
    && (e.expected.Some? ==> e.task != "")
    && Permitted(e.before, e.expected)
  }

  const REQUIRED := {
    "tasks", "reports", "issues", "ledger", "ledger/views", "_lifecycle/inbox", "_lifecycle/active",
    "_lifecycle/review", "_lifecycle/done", "_lifecycle/archive", "history", "shared", "alerts"
  }

  /** _ACTIVE_KERNELS: the mode registered for each root. */
  type Registry = map<string, string>

  /** _acquire_singleton_lock; None is its error. */
  function Registered(active: Registry, root: string, mode: string): Option<Registry> {
    if root in active && active[root] != "" && active[root] != mode then None else Some(active[root := mode])
  }

  /** The registry of one process, shared by its kernels. */
  class ActiveKernels {
    var modes: Registry

    constructor ()
      ensures modes == map[]
    {
      modes := map[];
    }
  }

  class MutationKernel {
    const root: string
    const mode: string
    var closed: bool
    var journal: seq<Entry>

    ghost predicate Valid()
      reads this
    {
      mode in MODES && forall e :: e in journal ==> Lawful(mode, e)
    }

    constructor (r: string, m: string)
      requires m in MODES
      ensures Valid() && root == r && mode == m && !closed && journal == []
    {
      root := r;
      mode := m;
      closed := false;
      journal := [];
    }

    /** Construction as callers see it. It is refused if a required path below the root is missing, if the mode is
        not supported, or if the root is registered for another mode; have holds the paths that exist. */
    static method Open(active: ActiveKernels, root: string, have: set<string>, m: string)
      returns (k: MutationKernel?)
      modifies active
      ensures k != null <==>
        REQUIRED <= have && Norm(m) in MODES && Registered(old(active.modes), root, Norm(m)) != None
      ensures k != null ==> fresh(k) && k.Valid() && k.root == root && k.mode == Norm(m) && !k.closed && k.journal == []
      ensures active.modes == if k != null then old(active.modes)[root := Norm(m)] else old(active.modes)
    {
      k := null;
      if REQUIRED <= have && Norm(m) in MODES {
        var registered := Registered(active.modes, root, Norm(m));
        if registered.Some? {
          k := new MutationKernel(root, Norm(m));
          active.modes := registered.value;
        }
      }
    }

    /** The first close takes the root off the registry, whoever registered it. */
    method Close(active: ActiveKernels)
      modifies this`closed, active
      ensures closed
      ensures active.modes == if old(closed) then old(active.modes) else old(active.modes) - {root}
    {
      if !closed {
        closed := true;
        active.modes := active.modes - {root};
      }
    }

    /** _validate_runtime_request: the checks made before the dispatch lock is taken. */
    method ValidateRuntimeRequest(q: Request) returns (r: Option<Refusal>)
      ensures r == None <==> Admissible(mode, closed, q)
      ensures closed ==> r == Some(KernelClosed)
    {
      var syscall, driver := Call(q), Driver(q);
      if closed { return Some(KernelClosed); }
      if !q.payloadIsDict { return Some(PayloadShape); }
      if syscall == "" { return Some(NoSyscall); }
      if driver !in MODES { return Some(UnknownDriver); }
      if syscall !in Allowed(driver) { return Some(SyscallRefused); }
      if mode != "mcp" && mode != driver { return Some(ModeRefused); }
      if !CallerMay(syscall, driver, q.caller) { return Some(CallerRefused); }
      if syscall in LIFECYCLE && q.task == "" { return Some(NoTask); }
      return None;
    }

    /** The verdict under the lock. Other requests and close() may come between the checks and this. */
    method Judge(q: Request, fs: Folders) returns (r: Reply)
      requires Valid() && Admissible(mode, false, q)
      ensures Decides(mode, q, fs, r)
    {
      var before := None;
      if q.task != "" {
        before := ResolveTaskStage(fs, q.task);
      }
      var expected := None;
      if Call(q) in LIFECYCLE && q.task != "" {
        var target := Target(Call(q));
        expected := Some(target);
        if before.Some? && target != Inbox {
          ValidatesIff(before.value, target);
          if !Validates(Name(before.value), Name(target)) {
            return Refused(Forbidden);
          }
        }
      }
      r := Accepted(Entry(q.task, Call(q), q.caller, Driver(q), mode, before, expected));
    }

    /** _append_journal, in another thread while the lock is held: close() may come before it. */
    method AppendJournal(e: Entry)
      requires Valid() && Lawful(mode, e)
      modifies this`journal
      ensures Valid() && journal == old(journal) + [e]
    {
      journal := journal + [e];
    }

    /** Everything between taking the lock and releasing it. */
    method Commit(q: Request, fs: Folders) returns (r: Reply)
      requires Valid() && Admissible(mode, false, q)
      modifies this`journal
      ensures Valid() && Decides(mode, q, fs, r)
      ensures journal == if r.Accepted? then old(journal) + [r.entry] else old(journal)
    {
      r := Judge(q, fs);
      if r.Accepted? {
        AppendJournal(r.entry);
      }
    }

    /** dispatch_async, when nothing comes in between (KernelQueue covers the rest). */
    method Dispatch(q: Request, fs: Folders) returns (r: Reply)
      requires Valid()
      modifies this`journal
      ensures Valid()
      ensures if Admissible(mode, closed, q) then Decides(mode, q, fs, r) else r.Refused?
      ensures journal == if r.Accepted? then old(journal) + [r.entry] else old(journal)
    {
      var refusal := ValidateRuntimeRequest(q);
      match refusal {
        case Some(why) => r := Refused(why);
        case None => r := Commit(q, fs);
      }
    }
  }

  /** The task is in a stage from which the call's target cannot be reached in one step. */
  ghost predicate Forbids(q: Request, fs: Folders) {
    Call(q) in LIFECYCLE
    && exists s :: Resolves(fs, q.task, Some(s)) && Target(Call(q)) != Inbox && s != Target(Call(q))
                   && !Legal(s, Target(Call(q)))
  }

  /** The verdict under the lock on an admissible request. */
  ghost predicate Decides(mode: string, q: Request, fs: Folders, r: Reply) {
    match r
    case Refused(why) => why == Forbidden && Forbids(q, fs)
    case Accepted(e) =>
      && Lawful(mode, e) && e.task == q.task && e.syscall == Call(q) && e.caller == q.caller && e.driver == Driver(q)
      && (if q.task == "" then e.before == None else Resolves(fs, q.task, e.before))
  }

  /** A request has one verdict. */
  lemma DecidesOnce(mode: string, q: Request, fs: Folders, r: Reply, r': Reply)
    requires Decides(mode, q, fs, r) && Decides(mode, q, fs, r')
    requires Call(q) in LIFECYCLE ==> q.task != ""
    ensures r == r'
  {
    if r.Accepted? && r'.Accepted? {
      if q.task != "" {
        ResolvesOnce(fs, q.task, r.entry.before, r'.entry.before);
      }
    } else if r.Refused? && r'.Accepted? {
      ForbiddenIsNotLawful(mode, q, fs, r.why, r'.entry);
    } else if r.Accepted? && r'.Refused? {
      ForbiddenIsNotLawful(mode, q, fs, r'.why, r.entry);
    }
  }

  lemma ForbiddenIsNotLawful(mode: string, q: Request, fs: Folders, why: Refusal, e: Entry)
    requires Decides(mode, q, fs, Refused(why)) && q.task != ""
    ensures !Decides(mode, q, fs, Accepted(e))
  {
    var s :| Resolves(fs, q.task, Some(s)) && Target(Call(q)) != Inbox && s != Target(Call(q))
             && !Legal(s, Target(Call(q)));
    if Decides(mode, q, fs, Accepted(e)) {
      ResolvesOnce(fs, q.task, Some(s), e.before);
    }
  }

  /** Who can have a task moved: never a kernel or a driver in native mode, never a Cursor caller. */
  lemma OnlyModelsMoveTasks(mode: string, e: Entry)
    requires Lawful(mode, e) && e.expected.Some?
    ensures mode != "native" && e.driver != "native" && !StartsWith(e.caller, "cursor") && e.task != ""
  {
    assert e.syscall in LIFECYCLE;
    assert e.syscall !in UI + {"JOURNAL_APPEND"};
  }

  // ----- runs

  /** One admitted request: its verdict and the files the driver then moves or, for WRITE_TASK, creates. */
  datatype Turn = Turn(q: Request, r: Reply, files: set<string>)

  function Moved(fs: Folders, files: set<string>, a: Stage, b: Stage): Folders {
    var out := fs[a := At(fs, a) - files];
    out[b := At(out, b) + files]
  }

  ghost predicate AreOf(task: string, files: set<string>) { forall f :: f in files ==> Matches(task, f) }

  /** The kernel decides on the files as they are, and an accepted move is applied before the next request. */
  ghost predicate Step(mode: string, fs: Folders, t: Turn, fs': Folders) {
    && Admissible(mode, false, t.q) && Decides(mode, t.q, fs, t.r)
    && if t.r.Refused? || t.r.entry.expected == None then fs' == fs
       else if t.r.entry.syscall == "WRITE_TASK" then
         AreOf(t.q.task, t.files) && fs' == fs[Inbox := At(fs, Inbox) + t.files]
       else if t.r.entry.before == None then fs' == fs
       else
         && AreOf(t.q.task, t.files) && t.files <= At(fs, t.r.entry.before.value)
         && fs' == Moved(fs, t.files, t.r.entry.before.value, t.r.entry.expected.value)
  }

  ghost predicate IsRun(mode: string, states: seq<Folders>, turns: seq<Turn>) {
    && |states| == |turns| + 1
    && forall i :: 0 <= i < |turns| ==> Step(mode, states[i], turns[i], states[i + 1])
  }

  /** The turn creates a file that the watched task's pattern matches. */
  ghost predicate Recreates(t: Turn, task: string) {
    t.r.Accepted? && t.r.entry.syscall == "WRITE_TASK" && exists f :: f in t.files && Matches(task, f)
  }

  /** The task is found, at a rank not below that of s. */
  ghost predicate AtLeast(fs: Folders, task: string, s: Stage) {
    exists t :: Resolves(fs, task, Some(t)) && Rank(s) <= Rank(t)
  }

  lemma FirstStage(fs: Folders, task: string, a: Stage) returns (s: Stage)
    requires Holds(fs, a, task)
    ensures Resolves(fs, task, Some(s))
    decreases Place(a)
  {
    if b :| Place(b) < Place(a) && Holds(fs, b, task) {
      s := FirstStage(fs, task, b);
    } else {
      s := a;
    }
  }

  /** What a turn does to the files. */
  datatype Change = Same | Added(files: set<string>) | Shifted(files: set<string>, a: Stage, b: Stage)

  ghost predicate Makes(fs: Folders, c: Change, fs': Folders) {
    match c
    case Same => fs' == fs
    case Added(files) => fs' == fs[Inbox := At(fs, Inbox) + files]
    case Shifted(files, a, b) => files <= At(fs, a) && fs' == Moved(fs, files, a, b) && Rank(a) <= Rank(b)
  }

  lemma StepMakes(mode: string, fs: Folders, t: Turn, fs': Folders) returns (c: Change)
    requires Step(mode, fs, t, fs')
    ensures Makes(fs, c, fs')
    ensures c.Added? <==> t.r.Accepted? && t.r.entry.syscall == "WRITE_TASK"
    ensures c.Added? ==> c.files == t.files
  {
    if t.r.Refused? || t.r.entry.expected == None {
      c := Same;
    } else if t.r.entry.syscall == "WRITE_TASK" {
      c := Added(t.files);
    } else if t.r.entry.before == None {
      c := Same;
    } else {
      c := Shifted(t.files, t.r.entry.before.value, t.r.entry.expected.value);
      TargetIsInbox(t.r.entry.syscall);
    }
  }

  lemma TargetIsInbox(syscall: string)
    requires syscall in LIFECYCLE
    ensures Target(syscall) == Inbox <==> syscall == "WRITE_TASK"
  {
  }

  ghost predicate Avoids(c: Change, task: string) { c.Added? ==> forall f :: f in c.files ==> !Matches(task, f) }

  /** Whatever task the request names, no change but the creation of a matching file lowers the rank at which
      the watched task is found. */
  lemma ChangeKeepsRank(fs: Folders, c: Change, fs': Folders, task: string, s: Stage)
    requires Makes(fs, c, fs') && Resolves(fs, task, Some(s)) && Avoids(c, task)
    ensures AtLeast(fs', task, s)
  {
    var f :| f in At(fs, s) && Matches(task, f);
    var a := if f in At(fs', s) then s else c.b;
    assert Holds(fs', a, task);
    var first := FirstStage(fs', task, a);
    var g :| g in At(fs', first) && Matches(task, g);
    var b := ComesFrom(fs, c, fs', task, g, first);
    assert Holds(fs, b, task);
    assert Place(s) <= Place(b);
  }

  /** Each file of the task comes from a stage of no higher rank. */
  lemma ComesFrom(fs: Folders, c: Change, fs': Folders, task: string, f: string, a: Stage) returns (b: Stage)
    requires Makes(fs, c, fs') && Avoids(c, task) && f in At(fs', a) && Matches(task, f)
    ensures f in At(fs, b) && Rank(b) <= Rank(a)
  {
    b := if f in At(fs, a) then a else c.a;
  }

  lemma StepKeepsRank(mode: string, fs: Folders, t: Turn, fs': Folders, task: string, s: Stage)
    requires Step(mode, fs, t, fs') && AtLeast(fs, task, s) && !Recreates(t, task)
    ensures AtLeast(fs', task, s)
  {
    var c := StepMakes(mode, fs, t, fs');
    var u :| Resolves(fs, task, Some(u)) && Rank(s) <= Rank(u);
    ChangeKeepsRank(fs, c, fs', task, u);
  }

  lemma {:induction false} AtLeastThroughout(states: seq<Folders>, task: string, s: Stage, n: nat)
    requires n < |states| && AtLeast(states[0], task, s)
    requires forall i :: 0 <= i < n && AtLeast(states[i], task, s) ==> AtLeast(states[i + 1], task, s)
    ensures AtLeast(states[n], task, s)
  {
    if n > 0 {
      AtLeastThroughout(states, task, s, n - 1);
    }
  }

  /** Over every run in which no accepted WRITE_TASK creates a file its pattern matches, a task stays found and
      its rank never falls; in particular history is absorbing. */
  lemma RankNeverFalls(mode: string, states: seq<Folders>, turns: seq<Turn>, task: string, s: Stage)
    requires IsRun(mode, states, turns) && Resolves(states[0], task, Some(s))
    requires forall i :: 0 <= i < |turns| ==> !Recreates(turns[i], task)
    ensures AtLeast(states[|turns|], task, s)
    ensures s == History ==> Resolves(states[|turns|], task, Some(History))
  {
    forall i | 0 <= i < |turns| && AtLeast(states[i], task, s) ensures AtLeast(states[i + 1], task, s) {
      StepKeepsRank(mode, states[i], turns[i], states[i + 1], task, s);
    }
    AtLeastThroughout(states, task, s, |turns|);
    AtLeastHistory(states[|turns|], task, s);
  }

  lemma AtLeastHistory(fs: Folders, task: string, s: Stage)
    requires AtLeast(fs, task, s)
    ensures s == History ==> Resolves(fs, task, Some(History))
  {
    var t :| Resolves(fs, task, Some(t)) && Rank(s) <= Rank(t);
    assert Rank(t) == 4 ==> t == History;
  }

  /** What the condition on WRITE_TASK excludes: such a call lowers the rank of a task exactly when one of the
      new files matches its pattern and the task was past the inbox. */
  lemma WriteTaskLowersIff(mode: string, fs: Folders, t: Turn, fs': Folders, task: string, s: Stage)
    requires Step(mode, fs, t, fs') && t.r.Accepted? && t.r.entry.syscall == "WRITE_TASK"
    requires Resolves(fs, task, Some(s))
    ensures AtLeast(fs', task, s) <==> !Recreates(t, task) || s == Inbox
  {
    var c := StepMakes(mode, fs, t, fs');
    if Recreates(t, task) {
      assert Holds(fs', Inbox, task);
      assert Resolves(fs', task, Some(Inbox));
      forall u | Resolves(fs', task, Some(u)) ensures u == Inbox {
        ResolvesOnce(fs', task, Some(u), Some(Inbox));
      }
    } else {
      ChangeKeepsRank(fs, c, fs', task, s);
    }
  }

  /** A task that never was written can do it too: creating TASK-10 takes TASK-1 from done back to the inbox,
      because one name is a prefix of the other. */
  lemma PrefixClash() returns (fs: Folders, t: Turn, fs': Folders)
    ensures Step("mcp", fs, t, fs') && t.q.task == "TASK-10" && Resolves(fs, "TASK-10", None)
    ensures Resolves(fs, "TASK-1", Some(Done)) && Resolves(fs', "TASK-1", Some(Inbox))
  {
    var mine, other := "TASK-1.md", "TASK-10.md";
    fs := map[Done := {mine}];
    fs' := fs[Inbox := {other}];
    t := Turn(Request("TASK-10", "WRITE_TASK", true, "mcp", "pm"),
              Accepted(Entry("TASK-10", "WRITE_TASK", "pm", "mcp", "mcp", None, Some(Inbox))), {other});
    Patterns();
    CleanWords();
    assert At(fs, Inbox) + {other} == {other};
    assert Holds(fs, Done, "TASK-1") && Holds(fs', Inbox, "TASK-1");
  }

  lemma Patterns()
    ensures Matches("TASK-1", "TASK-1.md") && Matches("TASK-1", "TASK-10.md") && Matches("TASK-10", "TASK-10.md")
    ensures !Matches("TASK-10", "TASK-1.md")
  {
    assert "TASK-1.md"[..6] == "TASK-1" && "TASK-10.md"[..6] == "TASK-1" && "TASK-10.md"[..7] == "TASK-10";
    assert "TASK-1.md"[6..] == ".md" && "TASK-10.md"[7..] == ".md";
  }

  lemma CleanWords()
    ensures Upper(Frontmatter.Strip("WRITE_TASK")) == "WRITE_TASK" && Norm("mcp") == "mcp"
  {
    NormOfWord("mcp");
  }
}
