/** What the writers of different processes can do to each other, and exactly when. */
module AtomicRaces {
  import opened Text
  import opened TempNames
  import opened AtomicWrite

  ghost predicate AllCalm(steps: seq<Step>) { forall k :: 0 <= k < |steps| ==> Calm(steps[k]) }

  /** s is reached from the directory dir without exceptions and deaths. */
  ghost predicate Reaches(w: World, dir: map<string, string>, s: State) {
    exists steps :: AllCalm(steps) && Run(w, Start(w, dir), steps) == s
  }

  /** A step in which nothing fails: no exception, no death, no failing listing or removal. */
  predicate Smooth(step: Step) {
    Calm(step) && !step.ListFails? && (step.CleanUp? || step.Unlink? ==> step.unlinks)
  }

  ghost predicate AllSmooth(steps: seq<Step>) { forall k :: 0 <= k < |steps| ==> Smooth(steps[k]) }

  /** s is reached from the directory dir without any failure. */
  ghost predicate ReachesSmoothly(w: World, dir: map<string, string>, s: State) {
    exists steps :: AllSmooth(steps) && Run(w, Start(w, dir), steps) == s
  }

  lemma SmoothIsCalm(w: World, dir: map<string, string>, s: State)
    requires ReachesSmoothly(w, dir, s)
    ensures Reaches(w, dir, s)
  {
    var steps :| AllSmooth(steps) && Run(w, Start(w, dir), steps) == s;
    assert AllCalm(steps);
  }

  lemma {:induction false} RunSnoc(w: World, s: State, steps: seq<Step>, step: Step)
    requires |s.phase| == |w.jobs|
    ensures Run(w, s, steps + [step]) == Apply(w, Run(w, s, steps), step)
    decreases |steps|
  {
    if steps == [] {
      assert [step][1..] == [];
    } else {
      assert (steps + [step])[1..] == steps[1..] + [step];
      RunSnoc(w, Apply(w, s, steps[0]), steps[1..], step);
    }
  }

  lemma ReachStart(w: World, dir: map<string, string>)
    ensures ReachesSmoothly(w, dir, Start(w, dir))
  {
    assert Run(w, Start(w, dir), []) == Start(w, dir);
  }

  lemma Reach(w: World, dir: map<string, string>, s: State, step: Step) returns (r: State)
    requires |s.phase| == |w.jobs| && ReachesSmoothly(w, dir, s) && Smooth(step)
    ensures |r.phase| == |w.jobs| && r == Apply(w, s, step) && ReachesSmoothly(w, dir, r)
  {
    var steps :| AllSmooth(steps) && Run(w, Start(w, dir), steps) == s;
    RunSnoc(w, Start(w, dir), steps, step);
    assert AllSmooth(steps + [step]);
    r := Apply(w, s, step);
  }

  /** The writer can get past the existence check. */
  predicate MayWrite(w: World, i: nat)
    requires i < |w.jobs|
  {
    !(w.jobs[i].skipIfExists && w.initial.Some?)
  }

  /** i and j are writers of different processes that can both get past the check. */
  predicate Rivals(w: World, i: nat, j: nat) {
    i < |w.jobs| && j < |w.jobs| && w.jobs[i].pid != w.jobs[j].pid && MayWrite(w, i) && MayWrite(w, j)
  }

  ghost predicate HasRivals(w: World) { exists i: nat, j: nat :: Rivals(w, i, j) }

  lemma RivalsApart(w: World, i: nat, j: nat)
    requires ValidWorld(w) && Rivals(w, i, j)
    ensures Tmp(w, i) != Tmp(w, j) && i != j
  {
    var a, b := w.jobs[i], w.jobs[j];
    if Tmp(w, i) == Tmp(w, j) {
      PidsTellNamesApart(w.base, a.pid, a.stamp, a.rand, b.pid, b.stamp, b.rand);
    }
  }

  // ----- stretches of one writer's run

  predicate Here(w: World, s: State, i: nat, p: Phase) {
    |s.phase| == |w.jobs| && i < |w.jobs| && s.phase[i] == p
  }

  lemma PassCheck(w: World, dir: map<string, string>, s: State, i: nat) returns (r: State)
    requires ReachesSmoothly(w, dir, s) && Here(w, s, i, Waiting) && w.jobs[i].pid !in s.lock
    requires !(w.jobs[i].skipIfExists && s.target.Some?)
    ensures ReachesSmoothly(w, dir, r) && r == At(s, i, Ready).(lock := s.lock[w.jobs[i].pid := i])
  {
    r := Reach(w, dir, s, Acquire(i));
    r := Reach(w, dir, r, CheckExists(i));
  }

  lemma OpenFile(w: World, dir: map<string, string>, s: State, i: nat) returns (r: State)
    requires ReachesSmoothly(w, dir, s) && Here(w, s, i, Ready)
    ensures ReachesSmoothly(w, dir, r) && r == At(s, i, Opened).(dir := s.dir[Tmp(w, i) := ""])
  {
    r := Reach(w, dir, s, Open(i));
  }

  lemma FlushFile(w: World, dir: map<string, string>, s: State, i: nat) returns (r: State)
    requires ReachesSmoothly(w, dir, s) && Here(w, s, i, Opened) && Tmp(w, i) in s.dir
    ensures ReachesSmoothly(w, dir, r) && r == At(s, i, Flushed).(dir := s.dir[Tmp(w, i) := w.jobs[i].content])
  {
    r := Reach(w, dir, s, Flush(i));
  }

  lemma FillFile(w: World, dir: map<string, string>, s: State, i: nat) returns (r: State)
    requires ReachesSmoothly(w, dir, s) && Here(w, s, i, Ready)
    ensures ReachesSmoothly(w, dir, r) && r == At(s, i, Flushed).(dir := s.dir[Tmp(w, i) := w.jobs[i].content])
  {
    var tmp, content := Tmp(w, i), w.jobs[i].content;
    var t := OpenFile(w, dir, s, i);
    r := FlushFile(w, dir, t, i);
    assert s.dir[tmp := ""][tmp := content] == s.dir[tmp := content];
    assert s.phase[i := Opened][i := Flushed] == s.phase[i := Flushed];
  }

  lemma ReplaceTarget(w: World, dir: map<string, string>, s: State, i: nat) returns (r: State)
    requires ReachesSmoothly(w, dir, s) && Here(w, s, i, Flushed) && Tmp(w, i) in s.dir
    ensures ReachesSmoothly(w, dir, r)
    ensures r == At(s, i, Replaced).(target := Some(s.dir[Tmp(w, i)]), dir := s.dir - {Tmp(w, i)}, log := s.log + [i])
  {
    r := Reach(w, dir, s, Replace(i));
  }

  /** An intermediate phase leaves no trace. */
  lemma FinishForgets(w: World, s: State, i: nat, p: Phase, o: Outcome)
    requires i < |s.phase| && i < |w.jobs|
    ensures Finish(w, At(s, i, p), i, o) == Finish(w, s, i, o)
  {
    assert s.phase[i := p][i := Done(o)] == s.phase[i := Done(o)];
  }

  lemma {:induction false} Enumerate(all: set<string>) returns (names: seq<string>)
    ensures NoRepeat(names) && forall n :: n in names <==> n in all
  {
    if all == {} {
      names := [];
    } else {
      var n :| n in all;
      names := Enumerate(all - {n});
      names := names + [n];
    }
  }

  lemma ListAll(w: World, dir: map<string, string>, s: State, i: nat, names: seq<string>) returns (r: State)
    requires ReachesSmoothly(w, dir, s) && Here(w, s, i, Replaced) && NoRepeat(names)
    requires forall n :: n in names <==> n in s.dir
    ensures ReachesSmoothly(w, dir, r) && r == At(s, i, Sweeping(names))
  {
    assert (set n | n in names) == s.dir.Keys;
    r := Reach(w, dir, s, ListDir(i, names));
  }

  /** The directory after the stale files among the names have been removed. */
  function Swept(w: World, dir: map<string, string>, names: seq<string>): map<string, string> {
    if names == [] then dir
    else Swept(w, if IsStaleTmp(names[0], w.base) then dir - {names[0]} else dir, names[1..])
  }

  lemma {:induction false} SweptAt(w: World, dir: map<string, string>, names: seq<string>, n: string)
    ensures n in Swept(w, dir, names) <==> n in dir && !(n in names && IsStaleTmp(n, w.base))
    ensures n in Swept(w, dir, names) ==> Swept(w, dir, names)[n] == dir[n]
  {
    if names != [] {
      assert names == [names[0]] + names[1..];
      SweptAt(w, if IsStaleTmp(names[0], w.base) then dir - {names[0]} else dir, names[1..], n);
    }
  }

  lemma SweepFirst(w: World, dir: map<string, string>, s: State, i: nat, todo: seq<string>) returns (r: State)
    requires ReachesSmoothly(w, dir, s) && Here(w, s, i, Sweeping(todo)) && todo != []
    ensures ReachesSmoothly(w, dir, r)
    ensures
      var d := if IsStaleTmp(todo[0], w.base) then s.dir - {todo[0]} else s.dir;
      r == At(s.(dir := d), i, Sweeping(todo[1..]))
  {
    r := Reach(w, dir, s, Unlink(i, true));
  }

  lemma {:induction false} SweepRest(w: World, dir: map<string, string>, s: State, i: nat, todo: seq<string>)
    returns (r: State)
    requires ReachesSmoothly(w, dir, s) && Here(w, s, i, Sweeping(todo))
    ensures ReachesSmoothly(w, dir, r) && r == Finish(w, s.(dir := Swept(w, s.dir, todo)), i, Written)
    decreases |todo|
  {
    if todo == [] {
      r := Reach(w, dir, s, Return(i));
    } else {
      var t := SweepFirst(w, dir, s, i, todo);
      r := SweepRest(w, dir, t, i, todo[1..]);
      FinishForgets(w, s.(dir := Swept(w, s.dir, todo)), i, Sweeping(todo[1..]), Written);
    }
  }

  /** A writer that has replaced sweeps the directory and returns. */
  lemma SweepAndReturn(w: World, dir: map<string, string>, s: State, i: nat) returns (r: State, names: seq<string>)
    requires ReachesSmoothly(w, dir, s) && Here(w, s, i, Replaced)
    ensures ReachesSmoothly(w, dir, r) && r == Finish(w, s.(dir := Swept(w, s.dir, names)), i, Written)
    ensures forall n :: n in names <==> n in s.dir
  {
    names := Enumerate(s.dir.Keys);
    var t := ListAll(w, dir, s, i, names);
    r := SweepRest(w, dir, t, i, names);
    FinishForgets(w, s.(dir := Swept(w, s.dir, names)), i, Sweeping(names), Written);
  }

  lemma RaiseUnnamed(w: World, dir: map<string, string>, s: State, i: nat) returns (r: State)
    requires ReachesSmoothly(w, dir, s) && Here(w, s, i, Flushed) && Tmp(w, i) !in s.dir
    ensures ReachesSmoothly(w, dir, r) && r == Finish(w, s, i, Raised)
  {
    var t := FailToReplace(w, dir, s, i);
    r := CleanAndRaise(w, dir, t, i);
    FinishForgets(w, s, i, Cleaning, Raised);
  }

  lemma FailToReplace(w: World, dir: map<string, string>, s: State, i: nat) returns (r: State)
    requires ReachesSmoothly(w, dir, s) && Here(w, s, i, Flushed) && Tmp(w, i) !in s.dir
    ensures ReachesSmoothly(w, dir, r) && r == At(s, i, Cleaning)
  {
    r := Reach(w, dir, s, Replace(i));
  }

  lemma CleanAndRaise(w: World, dir: map<string, string>, s: State, i: nat) returns (r: State)
    requires ReachesSmoothly(w, dir, s) && Here(w, s, i, Cleaning) && Tmp(w, i) !in s.dir
    ensures ReachesSmoothly(w, dir, r) && r == Finish(w, s, i, Raised)
  {
    r := Reach(w, dir, s, CleanUp(i, true));
  }

  // ----- two replacements

  function WithBoth(w: World, dir: map<string, string>, i: nat, j: nat): map<string, string>
    requires i < |w.jobs| && j < |w.jobs|
  {
    dir[Tmp(w, i) := w.jobs[i].content][Tmp(w, j) := w.jobs[j].content]
  }

  /** Two rivals with both their files written. */
  lemma BothFlushed(w: World, dir: map<string, string>, i: nat, j: nat) returns (s: State)
    requires ValidWorld(w) && Rivals(w, i, j)
    ensures ReachesSmoothly(w, dir, s) && Here(w, s, i, Flushed) && Here(w, s, j, Flushed)
    ensures s.dir == WithBoth(w, dir, i, j) && s.target == w.initial && s.log == []
  {
    RivalsApart(w, i, j);
    ReachStart(w, dir);
    s := PassCheck(w, dir, Start(w, dir), i);
    s := PassCheck(w, dir, s, j);
    s := FillFile(w, dir, s, i);
    s := FillFile(w, dir, s, j);
  }

  /** Rivals can both write, whatever else is in the directory. */
  lemma RivalsBothWrite(w: World, dir: map<string, string>, i: nat, j: nat) returns (s: State)
    requires ValidWorld(w) && Rivals(w, i, j)
    ensures ReachesSmoothly(w, dir, s) && Here(w, s, i, Done(Written)) && Here(w, s, j, Done(Written))
    ensures s.log == [i, j] && s.target == Some(w.jobs[j].content)
  {
    RivalsApart(w, i, j);
    s := BothFlushed(w, dir, i, j);
    s := ReplaceTarget(w, dir, s, i);
    s := ReplaceTarget(w, dir, s, j);
    var names;
    s, names := SweepAndReturn(w, dir, s, i);
    s, names := SweepAndReturn(w, dir, s, j);
  }

  /** The writers all skip an existing target, and there is none at first. */
  ghost predicate AllSkip(w: World) {
    w.initial == None && forall i :: 0 <= i < |w.jobs| ==> w.jobs[i].skipIfExists
  }

  ghost predicate OneProcess(w: World) {
    forall i, j :: 0 <= i < |w.jobs| && 0 <= j < |w.jobs| ==> w.jobs[i].pid == w.jobs[j].pid
  }

  /** The promise of skip_if_exists holds exactly within one process: the target is never replaced twice if and only if
      all the writers share a process. It holds then whatever listings and removals fail, and otherwise breaks without
      any failure. */
  lemma AtMostOneWriteIff(w: World, dir: map<string, string>)
    requires ValidWorld(w) && AllSkip(w)
    ensures (forall s :: Reaches(w, dir, s) ==> |s.log| <= 1) <==> OneProcess(w)
    ensures (forall s :: ReachesSmoothly(w, dir, s) ==> |s.log| <= 1) <==> OneProcess(w)
  {
    if OneProcess(w) {
      forall s | Reaches(w, dir, s) ensures |s.log| <= 1 {
        var steps :| AllCalm(steps) && Run(w, Start(w, dir), steps) == s;
        StartInv(w, dir);
        SkipRun(w, Start(w, dir), steps);
      }
      forall s | ReachesSmoothly(w, dir, s) ensures |s.log| <= 1 {
        SmoothIsCalm(w, dir, s);
      }
    } else {
      var i: nat, j: nat :| i < |w.jobs| && j < |w.jobs| && w.jobs[i].pid != w.jobs[j].pid;
      var s := RivalsBothWrite(w, dir, i, j);
      SmoothIsCalm(w, dir, s);
    }
  }

  // ----- a writer that raises through no fault of its own

  lemma FreshIsStale(w: World, i: nat)
    requires ValidWorld(w) && i < |w.jobs|
    ensures IsStaleTmp(Tmp(w, i), w.base)
  {
    var job := w.jobs[i];
    RecogniserExact(w.base, job.pid, job.stamp, job.rand, w.base);
  }

  /** A sweep in one process may take a rival's file in flight; the rival then raises. */
  lemma RivalRaises(w: World, dir: map<string, string>, i: nat, j: nat) returns (s: State)
    requires ValidWorld(w) && Rivals(w, i, j)
    ensures ReachesSmoothly(w, dir, s) && Here(w, s, i, Done(Raised)) && Here(w, s, j, Done(Written))
    ensures s.log == [j] && s.target == Some(w.jobs[j].content)
  {
    RivalsApart(w, i, j);
    FreshIsStale(w, i);
    s := BothFlushed(w, dir, i, j);
    s := ReplaceTarget(w, dir, s, j);
    var t, names := SweepAndReturn(w, dir, s, j);
    SweptAt(w, s.dir, names, Tmp(w, i));
    s := t;
    s := RaiseUnnamed(w, dir, s, i);
  }

  /** What rules raising out: a writer at work may write, and still has its file. */
  predicate Fine(w: World, s: State, i: nat)
    requires |s.phase| == |w.jobs| && i < |w.jobs|
  {
    var p := s.phase[i];
    && (p.Ready? || p.Opened? || p.Flushed? || p.Replaced? || p.Sweeping? ==> MayWrite(w, i))
    && (p.Opened? || p.Flushed? ==> Tmp(w, i) in s.dir)
    && !p.Cleaning? && p != Done(Raised)
  }

  ghost predicate FineInv(w: World, s: State) {
    Inv(w, s) && forall i :: 0 <= i < |w.jobs| ==> Fine(w, s, i)
  }

  /** A step of one writer keeps that writer fine; the directory changes only by a writer that may write. */
  lemma FineSelf(w: World, s: State, step: Step)
    requires Inv(w, s) && Moves(step, w) && Calm(step) && Fine(w, s, step.i)
    ensures Fine(w, Apply(w, s, step), step.i)
    ensures Apply(w, s, step).dir == s.dir || (Inside(s.phase[step.i]) && MayWrite(w, step.i))
  {
    assert w.initial.Some? ==> s.target.Some?;
  }

  lemma FineOther(w: World, s: State, r: State, i: nat, j: nat)
    requires !HasRivals(w) && Inv(w, s) && i < |w.jobs| && j < |w.jobs| && i != j
    requires |r.phase| == |w.jobs| && r.phase[j] == s.phase[j] && Fine(w, s, j)
    requires r.dir == s.dir || (Inside(s.phase[i]) && MayWrite(w, i))
    ensures Fine(w, r, j)
  {
    assert !Rivals(w, i, j);
  }

  lemma FineStep(w: World, s: State, step: Step)
    requires ValidWorld(w) && !HasRivals(w) && FineInv(w, s) && Calm(step)
    ensures FineInv(w, Apply(w, s, step))
  {
    StepInv(w, s, step);
    if Moves(step, w) {
      var r := Apply(w, s, step);
      StepMoves(w, s, step);
      FineSelf(w, s, step);
      forall j | 0 <= j < |w.jobs| ensures Fine(w, r, j) {
        if j != step.i { FineOther(w, s, r, step.i, j); }
      }
    }
  }

  lemma {:induction false} FineRun(w: World, s: State, steps: seq<Step>)
    requires ValidWorld(w) && !HasRivals(w) && FineInv(w, s) && AllCalm(steps)
    ensures FineInv(w, Run(w, s, steps))
    decreases |steps|
  {
    if steps != [] {
      FineStep(w, s, steps[0]);
      FineRun(w, Apply(w, s, steps[0]), steps[1..]);
    }
  }

  /** No writer ever raises without a failure of its own if and only if no two writers that can both get past
      the existence check are in different processes; such two make one raise without any failure. */
  lemma NobodyRaisesIff(w: World, dir: map<string, string>)
    requires ValidWorld(w)
    ensures (forall s, i: nat :: Reaches(w, dir, s) ==> !Here(w, s, i, Done(Raised))) <==> !HasRivals(w)
    ensures (forall s, i: nat :: ReachesSmoothly(w, dir, s) ==> !Here(w, s, i, Done(Raised))) <==> !HasRivals(w)
  {
    if HasRivals(w) {
      var i: nat, j: nat :| Rivals(w, i, j);
      var s := RivalRaises(w, dir, i, j);
      SmoothIsCalm(w, dir, s);
    } else {
      forall s, i: nat | Reaches(w, dir, s) ensures !Here(w, s, i, Done(Raised)) {
        var steps :| AllCalm(steps) && Run(w, Start(w, dir), steps) == s;
        StartInv(w, dir);
        FineRun(w, Start(w, dir), steps);
        assert i < |w.jobs| ==> Fine(w, s, i);
      }
      forall s, i: nat | ReachesSmoothly(w, dir, s) ensures !Here(w, s, i, Done(Raised)) {
        SmoothIsCalm(w, dir, s);
      }
    }
  }

  // ----- the smallest cases

  function Pair(skip: bool): World {
    World("r", None, [Job(1, "a", skip, 0, "00000000"), Job(2, "b", skip, 0, "00000000")])
  }

  /** Two processes that both skip an existing target may nevertheless both write. */
  lemma TwoProcessesBothWrite() returns (s: State)
    ensures ReachesSmoothly(Pair(true), map[], s) && s.phase == [Done(Written), Done(Written)] && s.log == [0, 1]
  {
    assert Rivals(Pair(true), 0, 1);
    s := RivalsBothWrite(Pair(true), map[], 0, 1);
  }

  /** A writer raises without any fault of its own. */
  lemma SweptWriterRaises() returns (s: State)
    ensures ReachesSmoothly(Pair(false), map[], s) && s.phase == [Done(Raised), Done(Written)] && s.target == Some("b")
  {
    assert Rivals(Pair(false), 0, 1);
    s := RivalRaises(Pair(false), map[], 0, 1);
  }
}
