/** Any number of writers, in threads and processes, replacing one target through temporary files. */
module AtomicWrite {
  import opened Text
  import opened TempNames

  /** One call of the writer. stamp and rand are what its clock and generator will yield. */
  datatype Job = Job(pid: nat, content: string, skipIfExists: bool, stamp: nat, rand: string)

  datatype Outcome = Written | Noop | Raised | Killed(replaced: bool)

  /** Where a writer is. Every phase from Locked to Sweeping is inside the lock. */
  datatype Phase =
    | Waiting
    | Locked
    | Ready
    | Opened
    | Flushed
    | Cleaning
    | Replaced
    | Sweeping(todo: seq<string>)
    | Done(outcome: Outcome)

  /** One target: its base name, what it held at first, and the writers. */
  datatype World = World(base: string, initial: Option<string>, jobs: seq<Job>)

  /** dir holds the other files of the directory; lock maps a process to the writer inside its lock for
      the target; log lists the writers that replaced the target, in order. */
  datatype State = State(dir: map<string, string>, target: Option<string>, lock: map<nat, nat>,
                         phase: seq<Phase>, log: seq<nat>)

  /** One step of one writer, or the death of a process. The flags say whether the system call succeeds. */
  datatype Step =
    | MakeParent(i: nat)
    | Acquire(i: nat)
    | CheckExists(i: nat)
    | Open(i: nat)
    | WritePart(i: nat, n: nat)
    | Flush(i: nat)
    | Replace(i: nat)
    | Fail(i: nat)
    | CleanUp(i: nat, unlinks: bool)
    | ListDir(i: nat, names: seq<string>)
    | ListFails(i: nat)
    | Unlink(i: nat, unlinks: bool)
    | Return(i: nat)
    | Kill(pid: nat)

  ghost predicate ValidWorld(w: World) {
    forall i :: 0 <= i < |w.jobs| ==> IsRand(w.jobs[i].rand)
  }

  function Tmp(w: World, i: nat): string
    requires i < |w.jobs|
  {
    TmpName(w.base, w.jobs[i].pid, w.jobs[i].stamp, w.jobs[i].rand)
  }

  predicate Inside(p: Phase) { !p.Waiting? && !p.Done? }

  predicate HasReplaced(p: Phase) {
    p.Replaced? || p.Sweeping? || p == Done(Written) || p == Done(Killed(true))
  }

  function Start(w: World, dir: map<string, string>): State {
    State(dir, w.initial, map[], seq(|w.jobs|, _ => Waiting), [])
  }

  function At(s: State, i: nat, p: Phase): State
    requires i < |s.phase|
  {
    s.(phase := s.phase[i := p])
  }

  /** Leave the lock with an outcome. */
  function Finish(w: World, s: State, i: nat, o: Outcome): State
    requires i < |s.phase| && i < |w.jobs|
  {
    At(s, i, Done(o)).(lock := s.lock - {w.jobs[i].pid})
  }

  function KilledPhase(p: Phase): Phase {
    if p.Done? then p else Done(Killed(HasReplaced(p)))
  }

  /** Killing a process ends all its writers where they stand and frees its lock. */
  function KillAll(w: World, s: State, pid: nat): State
    requires |s.phase| == |w.jobs|
  {
    s.(phase := seq(|s.phase|, i requires 0 <= i < |s.phase| =>
                  if w.jobs[i].pid == pid then KilledPhase(s.phase[i]) else s.phase[i]),
       lock := s.lock - {pid})
  }

  /** One step; a step that is not enabled changes nothing. */
  function Apply(w: World, s: State, step: Step): State
    requires |s.phase| == |w.jobs|
  {
    if step.Kill? then KillAll(w, s, step.pid)
    else if step.i >= |w.jobs| then s
    else
      var i, job, p, tmp := step.i, w.jobs[step.i], s.phase[step.i], Tmp(w, step.i);
      match step
      case MakeParent(_) =>                              // os.makedirs raises
        if p.Waiting? then At(s, i, Done(Raised)) else s
      case Acquire(_) =>
        if p.Waiting? && job.pid !in s.lock then At(s, i, Locked).(lock := s.lock[job.pid := i]) else s
      case CheckExists(_) =>
        if !p.Locked? then s
        else if job.skipIfExists && s.target.Some? then Finish(w, s, i, Noop)
        else At(s, i, Ready)
      case Open(_) =>                                    // open(tmp, "w") creates or truncates
        if p.Ready? then At(s, i, Opened).(dir := s.dir[tmp := ""]) else s
      case WritePart(_, n) =>                            // a buffer reaches the file, if it still has its name
        if p.Opened? && n <= |job.content| && tmp in s.dir then s.(dir := s.dir[tmp := job.content[..n]]) else s
      case Flush(_) =>                                   // all written, fsynced and closed
        if !p.Opened? then s
        else if tmp in s.dir then At(s, i, Flushed).(dir := s.dir[tmp := job.content])
        else At(s, i, Flushed)
      case Replace(_) =>                                 // os.replace raises if another process swept the file
        if !p.Flushed? then s
        else if tmp in s.dir then
          At(s, i, Replaced).(target := Some(s.dir[tmp]), dir := s.dir - {tmp}, log := s.log + [i])
        else At(s, i, Cleaning)
      case Fail(_) =>                                    // any exception inside the try block
        if p.Ready? || p.Opened? || p.Flushed? then At(s, i, Cleaning) else s
      case CleanUp(_, unlinks) =>                        // the except block: unlink if possible, re-raise
        if !p.Cleaning? then s
        else
          var s' := if unlinks && tmp in s.dir then s.(dir := s.dir - {tmp}) else s;
          Finish(w, s', i, Raised)
      case ListDir(_, names) =>
        if p.Replaced? && NoRepeat(names) && (set n | n in names) == s.dir.Keys then At(s, i, Sweeping(names)) else s
      case ListFails(_) =>
        if p.Replaced? then At(s, i, Sweeping([])) else s
      case Unlink(_, unlinks) =>
        if p.Sweeping? && p.todo != [] then
          var name := p.todo[0];
          var s' := if unlinks && IsStaleTmp(name, w.base) then s.(dir := s.dir - {name}) else s;
          At(s', i, Sweeping(p.todo[1..]))
        else s
      case Return(_) =>
        if p.Sweeping? && p.todo == [] then Finish(w, s, i, Written) else s
  }

  /** The state after a run of steps, in any interleaving. */
  function Run(w: World, s: State, steps: seq<Step>): (r: State)
    requires |s.phase| == |w.jobs|
    ensures |r.phase| == |w.jobs|
    decreases |steps|
  {
    if steps == [] then s else Run(w, Apply(w, s, steps[0]), steps[1..])
  }

  // ----- the invariant

  /** A process's lock is held by the one writer of the process that is inside. */
  ghost predicate LockInv(w: World, s: State)
    requires |s.phase| == |w.jobs|
  {
    && (forall i :: 0 <= i < |s.phase| && Inside(s.phase[i]) ==>
          w.jobs[i].pid in s.lock && s.lock[w.jobs[i].pid] == i)
    && (forall p :: p in s.lock ==>
          s.lock[p] < |s.phase| && Inside(s.phase[s.lock[p]]) && w.jobs[s.lock[p]].pid == p)
  }

  /** A flushed temporary file, while it still has its name, holds its writer's whole content. */
  ghost predicate TmpInv(w: World, s: State)
    requires |s.phase| == |w.jobs|
  {
    forall i :: 0 <= i < |s.phase| && s.phase[i].Flushed? && Tmp(w, i) in s.dir ==>
      s.dir[Tmp(w, i)] == w.jobs[i].content
  }

  /** The log names exactly the writers that have replaced, each once, and the last one owns the target. */
  ghost predicate LogInv(w: World, s: State)
    requires |s.phase| == |w.jobs|
  {
    && (forall k :: 0 <= k < |s.log| ==> s.log[k] < |s.phase| && HasReplaced(s.phase[s.log[k]]))
    && (forall i :: 0 <= i < |s.phase| && HasReplaced(s.phase[i]) ==> i in s.log)
    && (forall k, m :: 0 <= k < m < |s.log| ==> s.log[k] != s.log[m])
    && s.target == if s.log == [] then w.initial else Some(w.jobs[s.log[|s.log| - 1]].content)
  }

  ghost predicate Inv(w: World, s: State) {
    |s.phase| == |w.jobs| && LockInv(w, s) && TmpInv(w, s) && LogInv(w, s)
  }

  lemma StartInv(w: World, dir: map<string, string>)
    ensures Inv(w, Start(w, dir))
  {
  }

  /** Two writers inside their locks never use one temporary name. */
  lemma TmpsApart(w: World, s: State, i: nat, j: nat)
    requires ValidWorld(w) && Inv(w, s) && i < |w.jobs| && j < |w.jobs| && i != j
    requires Inside(s.phase[i]) && Inside(s.phase[j])
    ensures Tmp(w, i) != Tmp(w, j) && w.jobs[i].pid != w.jobs[j].pid
  {
    var a, b := w.jobs[i], w.jobs[j];
    if Tmp(w, i) == Tmp(w, j) {
      PidsTellNamesApart(w.base, a.pid, a.stamp, a.rand, b.pid, b.stamp, b.rand);
    }
  }

  // What one writer's step can do to the lock, to the directory and to the log.

  predicate Moves(step: Step, w: World) { !step.Kill? && step.i < |w.jobs| }

  ghost predicate LockMove(w: World, s: State, r: State, i: nat)
    requires |s.phase| == |r.phase| == |w.jobs| && i < |w.jobs|
  {
    var pid := w.jobs[i].pid;
    || (Inside(r.phase[i]) == Inside(s.phase[i]) && r.lock == s.lock)
    || (!Inside(s.phase[i]) && Inside(r.phase[i]) && pid !in s.lock && r.lock == s.lock[pid := i])
    || (Inside(s.phase[i]) && !Inside(r.phase[i]) && r.lock == s.lock - {pid})
  }

  ghost predicate DirMove(w: World, s: State, r: State, i: nat)
    requires |s.phase| == |r.phase| == |w.jobs| && i < |w.jobs|
  {
    || (r.dir.Keys <= s.dir.Keys && (forall n :: n in r.dir ==> r.dir[n] == s.dir[n])
        && (r.phase[i].Flushed? ==> s.phase[i].Flushed? || Tmp(w, i) !in r.dir))
    || (Inside(s.phase[i]) && Tmp(w, i) in r.dir && r.dir == s.dir[Tmp(w, i) := r.dir[Tmp(w, i)]]
        && (r.phase[i].Flushed? ==> r.dir[Tmp(w, i)] == w.jobs[i].content))
  }

  ghost predicate LogMove(w: World, s: State, r: State, i: nat)
    requires |s.phase| == |r.phase| == |w.jobs| && i < |w.jobs|
  {
    || (r.log == s.log && r.target == s.target && HasReplaced(r.phase[i]) == HasReplaced(s.phase[i]))
    || (s.phase[i].Flushed? && HasReplaced(r.phase[i]) && r.log == s.log + [i]
        && Tmp(w, i) in s.dir && r.target == Some(s.dir[Tmp(w, i)]))
  }

  lemma StepMoves(w: World, s: State, step: Step)
    requires |s.phase| == |w.jobs| && Moves(step, w)
    ensures forall k :: 0 <= k < |w.jobs| && k != step.i ==> Apply(w, s, step).phase[k] == s.phase[k]
    ensures LockMove(w, s, Apply(w, s, step), step.i)
  {
  }

  lemma StepDir(w: World, s: State, step: Step)
    requires |s.phase| == |w.jobs| && Moves(step, w)
    ensures DirMove(w, s, Apply(w, s, step), step.i)
  {
  }

  lemma StepLog(w: World, s: State, step: Step)
    requires |s.phase| == |w.jobs| && Moves(step, w)
    ensures LogMove(w, s, Apply(w, s, step), step.i)
  {
  }

  lemma KillInv(w: World, s: State, pid: nat)
    requires Inv(w, s)
    ensures Inv(w, KillAll(w, s, pid))
  {
  }

  lemma LockKept(w: World, s: State, r: State, i: nat)
    requires Inv(w, s) && i < |w.jobs| && |r.phase| == |w.jobs|
    requires forall k :: 0 <= k < |w.jobs| && k != i ==> r.phase[k] == s.phase[k]
    requires LockMove(w, s, r, i)
    ensures LockInv(w, r)
  {
  }

  lemma TmpKept(w: World, s: State, r: State, i: nat)
    requires ValidWorld(w) && Inv(w, s) && i < |w.jobs| && |r.phase| == |w.jobs|
    requires forall k :: 0 <= k < |w.jobs| && k != i ==> r.phase[k] == s.phase[k]
    requires DirMove(w, s, r, i)
    ensures TmpInv(w, r)
  {
    forall j | 0 <= j < |r.phase| && r.phase[j].Flushed? && Tmp(w, j) in r.dir
      ensures r.dir[Tmp(w, j)] == w.jobs[j].content
    {
      if j != i && Inside(s.phase[i]) {
        TmpsApart(w, s, i, j);
      }
    }
  }

  lemma LogKept(w: World, s: State, r: State, i: nat)
    requires Inv(w, s) && i < |w.jobs| && |r.phase| == |w.jobs|
    requires forall k :: 0 <= k < |w.jobs| && k != i ==> r.phase[k] == s.phase[k]
    requires LogMove(w, s, r, i)
    ensures LogInv(w, r)
  {
    if r.log != s.log {
      assert r.log[|s.log|] == i;
      assert forall k :: k in s.log ==> k in r.log;
    }
  }

  lemma MoveInv(w: World, s: State, r: State, i: nat)
    requires ValidWorld(w) && Inv(w, s) && i < |w.jobs| && |r.phase| == |w.jobs|
    requires forall k :: 0 <= k < |w.jobs| && k != i ==> r.phase[k] == s.phase[k]
    requires LockMove(w, s, r, i) && DirMove(w, s, r, i) && LogMove(w, s, r, i)
    ensures Inv(w, r)
  {
    LockKept(w, s, r, i);
    TmpKept(w, s, r, i);
    LogKept(w, s, r, i);
  }

  lemma MoveStepInv(w: World, s: State, step: Step)
    requires ValidWorld(w) && Inv(w, s) && Moves(step, w)
    ensures Inv(w, Apply(w, s, step))
  {
    StepMoves(w, s, step);
    StepDir(w, s, step);
    StepLog(w, s, step);
    MoveInv(w, s, Apply(w, s, step), step.i);
  }

  lemma KillStepInv(w: World, s: State, step: Step)
    requires Inv(w, s) && !Moves(step, w)
    ensures Inv(w, Apply(w, s, step))
  {
    if step.Kill? {
      KillInv(w, s, step.pid);
    }
  }

  lemma StepInv(w: World, s: State, step: Step)
    requires ValidWorld(w) && Inv(w, s)
    ensures Inv(w, Apply(w, s, step))
  {
    if Moves(step, w) {
      MoveStepInv(w, s, step);
    } else {
      KillStepInv(w, s, step);
    }
  }

  lemma {:induction false} RunInv(w: World, s: State, steps: seq<Step>)
    requires ValidWorld(w) && Inv(w, s)
    ensures Inv(w, Run(w, s, steps))
    decreases |steps|
  {
    if steps != [] {
      StepInv(w, s, steps[0]);
      RunInv(w, Apply(w, s, steps[0]), steps[1..]);
    }
  }

  // ----- main results

  /** In every interleaving the target holds its initial state or one writer's complete content. */
  lemma TargetIsWhole(w: World, dir: map<string, string>, steps: seq<Step>)
    requires ValidWorld(w)
    ensures
      var r := Run(w, Start(w, dir), steps);
      || (r.log == [] && r.target == w.initial)
      || (r.log != [] && r.log[|r.log| - 1] < |w.jobs| && r.target == Some(w.jobs[r.log[|r.log| - 1]].content))
  {
    StartInv(w, dir);
    RunInv(w, Start(w, dir), steps);
  }

  function Times(log: seq<nat>, i: nat): nat {
    if log == [] then 0 else Times(log[1..], i) + if log[0] == i then 1 else 0
  }

  lemma {:induction false} TimesOnce(log: seq<nat>, i: nat)
    requires forall k, m :: 0 <= k < m < |log| ==> log[k] != log[m]
    ensures Times(log, i) == if i in log then 1 else 0
  {
    if log != [] {
      forall k, m | 0 <= k < m < |log[1..]| ensures log[1..][k] != log[1..][m] {
        assert log[1..][k] == log[k + 1] && log[1..][m] == log[m + 1];
      }
      TimesOnce(log[1..], i);
      if log[0] == i {
        assert forall m :: 0 <= m < |log[1..]| ==> log[1..][m] == log[m + 1] != i;
      }
    }
  }

  /** "written" means replaced exactly once; "noop", raising and being killed too early mean never. */
  lemma OutcomeTellsReplacement(w: World, dir: map<string, string>, steps: seq<Step>, i: nat)
    requires ValidWorld(w) && i < |w.jobs|
    ensures
      var r := Run(w, Start(w, dir), steps);
      r.phase[i].Done? ==>
        Times(r.log, i) == if r.phase[i].outcome == Written || r.phase[i].outcome == Killed(true) then 1 else 0
  {
    StartInv(w, dir);
    RunInv(w, Start(w, dir), steps);
    TimesOnce(Run(w, Start(w, dir), steps).log, i);
  }

  /** In every interleaving, two writers past the lock are in different processes and write different files. */
  lemma InFlightApart(w: World, dir: map<string, string>, steps: seq<Step>, i: nat, j: nat)
    requires ValidWorld(w) && i < |w.jobs| && j < |w.jobs| && i != j
    ensures
      var r := Run(w, Start(w, dir), steps);
      Inside(r.phase[i]) && Inside(r.phase[j]) ==> w.jobs[i].pid != w.jobs[j].pid && Tmp(w, i) != Tmp(w, j)
  {
    StartInv(w, dir);
    RunInv(w, Start(w, dir), steps);
    var r := Run(w, Start(w, dir), steps);
    if Inside(r.phase[i]) && Inside(r.phase[j]) {
      TmpsApart(w, r, i, j);
    }
  }

  // ----- skip_if_exists within one process

  /** All writers run in one process, skip an existing target, and the target is absent at first. */
  ghost predicate OneProcessSkips(w: World) {
    && w.initial == None
    && forall i, j :: 0 <= i < |w.jobs| && 0 <= j < |w.jobs| ==>
      w.jobs[i].skipIfExists && w.jobs[i].pid == w.jobs[j].pid
  }

  /** Neither an exception nor the end of the process. */
  predicate Calm(step: Step) { !step.MakeParent? && !step.Fail? && !step.Kill? }

  predicate Writing(p: Phase) { p.Ready? || p.Opened? || p.Flushed? }

  predicate SkipFine(w: World, s: State, i: nat)
    requires |s.phase| == |w.jobs| && i < |w.jobs|
  {
    var p := s.phase[i];
    && (Writing(p) ==> s.log == [])
    && (p.Opened? || p.Flushed? ==> Tmp(w, i) in s.dir)
    && !p.Cleaning? && p != Done(Raised) && !(p.Done? && p.outcome.Killed?)
    && (p == Done(Noop) ==> s.log != [])
  }

  ghost predicate SkipInv(w: World, s: State) {
    Inv(w, s) && |s.log| <= 1 && forall i :: 0 <= i < |w.jobs| ==> SkipFine(w, s, i)
  }

  lemma OneInside(w: World, s: State, i: nat, j: nat)
    requires OneProcessSkips(w) && Inv(w, s) && i < |w.jobs| && j < |w.jobs|
    ensures Inside(s.phase[i]) && Inside(s.phase[j]) ==> i == j
  {
  }

  lemma TargetMeansLog(w: World, s: State)
    requires OneProcessSkips(w) && Inv(w, s)
    ensures s.log != [] <==> s.target.Some?
  {
  }

  lemma SkipSelf(w: World, s: State, step: Step)
    requires OneProcessSkips(w) && |s.phase| == |w.jobs| && Moves(step, w) && Calm(step)
    requires SkipFine(w, s, step.i) && (s.log != [] <==> s.target.Some?)
    ensures SkipFine(w, Apply(w, s, step), step.i)
  {
  }

  lemma SkipEffects(w: World, s: State, step: Step)
    requires OneProcessSkips(w) && SkipInv(w, s) && Moves(step, w) && Calm(step)
    ensures Apply(w, s, step).log == s.log || (s.log == [] && Apply(w, s, step).log == [step.i])
    ensures Apply(w, s, step).log != s.log ==> Inside(s.phase[step.i])
    ensures Apply(w, s, step).dir == s.dir || Inside(s.phase[step.i])
  {
    assert SkipFine(w, s, step.i);
  }

  lemma SkipOther(w: World, s: State, r: State, i: nat, j: nat)
    requires OneProcessSkips(w) && SkipInv(w, s) && i < |w.jobs| && j < |w.jobs| && i != j
    requires |r.phase| == |w.jobs| && r.phase[j] == s.phase[j]
    requires r.log == s.log || (Inside(s.phase[i]) && r.log != [])
    requires r.dir == s.dir || Inside(s.phase[i])
    ensures SkipFine(w, r, j)
  {
    OneInside(w, s, i, j);
    assert SkipFine(w, s, j);
  }

  lemma SkipStep(w: World, s: State, step: Step)
    requires ValidWorld(w) && OneProcessSkips(w) && SkipInv(w, s) && Calm(step)
    ensures SkipInv(w, Apply(w, s, step))
  {
    StepInv(w, s, step);
    if Moves(step, w) {
      var r := Apply(w, s, step);
      StepMoves(w, s, step);
      TargetMeansLog(w, s);
      SkipSelf(w, s, step);
      SkipEffects(w, s, step);
      forall j | 0 <= j < |w.jobs| ensures SkipFine(w, r, j) {
        if j != step.i { SkipOther(w, s, r, step.i, j); }
      }
    }
  }

  lemma SkipTarget(w: World, s: State, step: Step)
    requires ValidWorld(w) && OneProcessSkips(w) && SkipInv(w, s) && Calm(step) && s.log != []
    ensures Apply(w, s, step).log == s.log && Apply(w, s, step).target == s.target
  {
    SkipStep(w, s, step);
    if Moves(step, w) {
      SkipEffects(w, s, step);
    }
  }

  lemma {:induction false} SkipRun(w: World, s: State, steps: seq<Step>)
    requires ValidWorld(w) && OneProcessSkips(w) && SkipInv(w, s) && forall k :: 0 <= k < |steps| ==> Calm(steps[k])
    ensures SkipInv(w, Run(w, s, steps))
    ensures s.log != [] ==> Run(w, s, steps).target == s.target
    decreases |steps|
  {
    if steps != [] {
      SkipStep(w, s, steps[0]);
      if s.log != [] { SkipTarget(w, s, steps[0]); }
      SkipRun(w, Apply(w, s, steps[0]), steps[1..]);
    }
  }

  lemma SkipStart(w: World, dir: map<string, string>)
    requires ValidWorld(w) && OneProcessSkips(w)
    ensures SkipInv(w, Start(w, dir))
  {
    StartInv(w, dir);
  }

  lemma FirstStays(w: World, s: State, more: seq<Step>)
    requires ValidWorld(w) && OneProcessSkips(w) && SkipInv(w, s) && forall k :: 0 <= k < |more| ==> Calm(more[k])
    ensures s.target.Some? ==> Run(w, s, more).target == s.target
  {
    TargetMeansLog(w, s);
    SkipRun(w, s, more);
  }

  /** When all writers of one process have returned, one has written and every other one found its file. */
  lemma ExactlyOneWrites(w: World, dir: map<string, string>, steps: seq<Step>) returns (winner: nat)
    requires ValidWorld(w) && OneProcessSkips(w) && |w.jobs| > 0
    requires forall k :: 0 <= k < |steps| ==> Calm(steps[k])
    requires forall i :: 0 <= i < |w.jobs| ==> Run(w, Start(w, dir), steps).phase[i].Done?
    ensures winner < |w.jobs|
    ensures forall i :: 0 <= i < |w.jobs| ==>
      Run(w, Start(w, dir), steps).phase[i] == Done(if i == winner then Written else Noop)
    ensures Run(w, Start(w, dir), steps).target == Some(w.jobs[winner].content)
  {
    var r := Run(w, Start(w, dir), steps);
    SkipStart(w, dir);
    SkipRun(w, Start(w, dir), steps);
    assert SkipFine(w, r, 0);
    winner := r.log[0];
    forall i | 0 <= i < |w.jobs| ensures r.phase[i] == Done(if i == winner then Written else Noop) {
      assert SkipFine(w, r, i);
    }
  }

  /** Once some writer of the process has replaced the absent target, its content never changes. */
  lemma FirstContentStays(w: World, dir: map<string, string>, steps: seq<Step>, more: seq<Step>)
    requires ValidWorld(w) && OneProcessSkips(w)
    requires forall k :: 0 <= k < |steps| ==> Calm(steps[k])
    requires forall k :: 0 <= k < |more| ==> Calm(more[k])
    ensures
      var r := Run(w, Start(w, dir), steps);
      r.target.Some? ==> Run(w, r, more).target == r.target
  {
    var s := Start(w, dir);
    SkipStart(w, dir);
    SkipRun(w, s, steps);
    FirstStays(w, Run(w, s, steps), more);
  }
}
