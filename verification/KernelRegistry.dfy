/** The registry that is to keep kernels of different modes apart, over any run of constructions and closings. */
module KernelRegistry {
  import opened Text
  import opened Kernel

  datatype Instance = Instance(root: string, mode: string, open: bool)

  datatype State = State(active: Registry, kernels: seq<Instance>)

  /** Make is a construction that has passed the checks of root and mode. */
  datatype Step = Make(root: string, mode: string) | Close(k: nat)

  function Start(): State { State(map[], []) }

  /** One step, as MutationKernel.Open and MutationKernel.Close change the registry. */
  function Apply(s: State, step: Step): State {
    match step
    case Make(root, mode) =>
      if mode !in MODES then s
      else
        (match Registered(s.active, root, mode)
         case None => s
         case Some(active) => State(active, s.kernels + [Instance(root, mode, true)]))
    case Close(k) =>
      if k < |s.kernels| && s.kernels[k].open then
        State(s.active - {s.kernels[k].root}, s.kernels[k := s.kernels[k].(open := false)])
      else s
  }

  function Run(s: State, steps: seq<Step>): State
    decreases |steps|
  {
    if steps == [] then s else Run(Apply(s, steps[0]), steps[1..])
  }

  predicate IsOpen(s: State, k: nat) { k < |s.kernels| && s.kernels[k].open }

  /** What the registry is for: open kernels of one root have one mode. */
  ghost predicate Exclusive(s: State) {
    forall i: nat, j: nat :: IsOpen(s, i) && IsOpen(s, j) && s.kernels[i].root == s.kernels[j].root ==>
      s.kernels[i].mode == s.kernels[j].mode
  }

  /** An open kernel whose root is not registered. */
  predicate Orphan(s: State, k: nat) { IsOpen(s, k) && s.kernels[k].root !in s.active }

  ghost predicate NoOrphan(s: State) { forall k: nat :: !Orphan(s, k) }

  predicate Owns(s: State, k: nat, root: string) {
    IsOpen(s, k) && root in s.active && s.kernels[k].root == root && s.kernels[k].mode == s.active[root]
  }

  /** Every registration is that of an open kernel. */
  ghost predicate Inv(s: State) {
    && (forall root :: root in s.active ==> exists k: nat :: Owns(s, k, root))
    && (forall k :: 0 <= k < |s.kernels| ==> s.kernels[k].mode in MODES)
  }

  lemma StepInv(s: State, step: Step)
    requires Inv(s)
    ensures Inv(Apply(s, step))
  {
    var r := Apply(s, step);
    forall root | root in r.active ensures exists k: nat :: Owns(r, k, root) {
      if step.Make? && r != s && root == step.root {
        assert Owns(r, |s.kernels|, root);
      } else {
        var k: nat :| Owns(s, k, root);
        assert Owns(r, k, root);
      }
    }
  }

  /** From a state where modes are kept apart, the next step keeps them apart, whatever it is, if and only if every
      open kernel is registered. */
  lemma StaysExclusiveIff(s: State)
    requires Inv(s) && Exclusive(s)
    ensures (forall step :: Exclusive(Apply(s, step))) <==> NoOrphan(s)
  {
    if NoOrphan(s) {
      forall step ensures Exclusive(Apply(s, step)) { RegisteredKeepsApart(s, step); }
    } else {
      var k: nat :| Orphan(s, k);
      OrphanBreaks(s, k);
    }
  }

  lemma RegisteredKeepsApart(s: State, step: Step)
    requires Inv(s) && Exclusive(s) && NoOrphan(s)
    ensures Exclusive(Apply(s, step))
  {
    var r := Apply(s, step);
    forall i: nat, j: nat | IsOpen(r, i) && IsOpen(r, j) && r.kernels[i].root == r.kernels[j].root
      ensures r.kernels[i].mode == r.kernels[j].mode
    {
      ModeIsRegistered(s, step, i);
      ModeIsRegistered(s, step, j);
    }
  }

  /** The mode of an open kernel after the step: the registered one. */
  lemma ModeIsRegistered(s: State, step: Step, i: nat)
    requires Inv(s) && Exclusive(s) && NoOrphan(s) && IsOpen(Apply(s, step), i)
    ensures
      var r := Apply(s, step);
      var root := r.kernels[i].root;
      if step.Make? && root == step.root then root in r.active && r.kernels[i].mode == r.active[root]
      else root in s.active && r.kernels[i].mode == s.active[root]
  {
    if i < |s.kernels| {
      var root := s.kernels[i].root;
      assert !Orphan(s, i);
      var k: nat :| Owns(s, k, root);
      assert IsOpen(s, i) && s.kernels[k].mode == s.kernels[i].mode;
      assert s.active[root] in MODES;
    }
  }

  lemma OrphanBreaks(s: State, k: nat)
    requires Inv(s) && Orphan(s, k)
    ensures exists step :: !Exclusive(Apply(s, step))
  {
    var step := Make(s.kernels[k].root, if s.kernels[k].mode == "mcp" then "native" else "mcp");
    var r := Apply(s, step);
    assert IsOpen(r, k) && IsOpen(r, |s.kernels|);
    assert !Exclusive(r);
  }

  /** The step closes a kernel while another one of its root is open. */
  predicate LeavesSibling(s: State, step: Step) {
    step.Close? && IsOpen(s, step.k)
    && exists j :: 0 <= j < |s.kernels| && j != step.k && s.kernels[j].open
                   && s.kernels[j].root == s.kernels[step.k].root
  }

  /** As long as every open kernel is registered, a step orphans one if and only if it closes another one of the same
      root. */
  lemma OrphansIff(s: State, step: Step)
    requires Inv(s) && NoOrphan(s)
    ensures NoOrphan(Apply(s, step)) <==> !LeavesSibling(s, step)
  {
    var r := Apply(s, step);
    if LeavesSibling(s, step) {
      var j :| 0 <= j < |s.kernels| && j != step.k && s.kernels[j].open && s.kernels[j].root == s.kernels[step.k].root;
      assert Orphan(r, j);
    } else {
      forall k: nat ensures !Orphan(r, k) {
        if k < |s.kernels| { assert !Orphan(s, k); }
      }
    }
  }

  /** No close of the run leaves another kernel of its root open. */
  predicate LoneCloses(s: State, steps: seq<Step>)
    decreases |steps|
  {
    steps == [] || (!LeavesSibling(s, steps[0]) && LoneCloses(Apply(s, steps[0]), steps[1..]))
  }

  /** Over every such run modes are kept apart. */
  lemma {:induction false} LoneClosesKeepApart(s: State, steps: seq<Step>)
    requires Inv(s) && Exclusive(s) && NoOrphan(s) && LoneCloses(s, steps)
    ensures var r := Run(s, steps); Inv(r) && Exclusive(r) && NoOrphan(r)
    decreases |steps|
  {
    if steps != [] {
      StepInv(s, steps[0]);
      RegisteredKeepsApart(s, steps[0]);
      OrphansIff(s, steps[0]);
      LoneClosesKeepApart(Apply(s, steps[0]), steps[1..]);
    }
  }

  lemma StartIsExclusive()
    ensures Inv(Start()) && Exclusive(Start()) && NoOrphan(Start())
  {
  }

  /** Two kernels of one mode may share a root; closing one lets a kernel of another mode in beside the other. */
  lemma TwoModes(root: string) returns (steps: seq<Step>)
    ensures steps == [Make(root, "native"), Make(root, "native"), Close(0), Make(root, "mcp")]
    ensures Run(Start(), steps).kernels ==
      [Instance(root, "native", false), Instance(root, "native", true), Instance(root, "mcp", true)]
  {
    var native, close, mcp := Make(root, "native"), Step.Close(0), Make(root, "mcp");
    var a := Apply(Start(), native);
    var b := Apply(a, native);
    var c := Apply(b, close);
    steps := [native, native, close, mcp];
    assert steps == [native] + [native, close, mcp] && [native, close, mcp] == [native] + [close, mcp]
           && [close, mcp] == [close] + [mcp] && [mcp] == [mcp] + [];
    RunCons(Start(), native, [native, close, mcp]);
    RunCons(a, native, [close, mcp]);
    RunCons(b, close, [mcp]);
    RunCons(c, mcp, []);
  }

  lemma RunCons(s: State, step: Step, rest: seq<Step>)
    ensures Run(s, [step] + rest) == Run(Apply(s, step), rest)
  {
    assert ([step] + rest)[1..] == rest;
  }
}
