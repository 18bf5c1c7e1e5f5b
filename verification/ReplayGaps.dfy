/** Completing the recorded lifecycle events of a task with the steps that were not recorded. */
module ReplayGaps {
  import opened Text
  import opened Sorting
  import opened Lifecycle

  /** An event id: as delivered, or composed of the parts of an inferred step. */
  datatype Id = Given(text: string) | Composed(step: Step, task: string, ts: int)

  /** from and to are the payload's stages in lower case; made marks an inferred event. */
  datatype Event = Event(id: Id, ts: int, kind: string, from: string, to: string, task: string, made: bool)

  datatype Step = Step(from: Stage, to: Stage)

  function Ts(e: Event): int { e.ts }

  predicate IsMade(e: Event) { e.made }

  predicate IsRecorded(e: Event) { !e.made }

  // ----- stages and steps

  /** REPLAY_STAGE_ORDER.indexOf */
  function StageIndex(stage: string): int {
    if stage == "inbox" then 0
    else if stage == "active" then 1
    else if stage == "review" then 2
    else if stage == "done" then 3
    else if stage == "archive" then 4
    else -1
  }

  /** STANDARD_LIFECYCLE_TRANSITIONS[k], which leads to stage k + 1. */
  function Standard(k: nat): Step {
    if k == 0 then Step(Inbox, Active)
    else if k == 1 then Step(Active, Review)
    else if k == 2 then Step(Review, Done)
    else Step(Done, Archive)
  }

  /** Its mark in the type of an event. */
  function Mark(k: nat): string {
    if k == 0 then "inbox_to_active"
    else if k == 1 then "task_to_review"
    else if k == 2 then "review_to_done"
    else "done_to_archive"
  }

  function StandardKind(k: nat): string { "codeflowmu.lifecycle." + Mark(k) }

  predicate Moves(e: Event, a: Stage, b: Stage) { e.from == Name(a) && e.to == Name(b) }

  predicate Says(e: Event, mark: string, step: Step) { Includes(e.kind, mark) || Moves(e, step.from, step.to) }

  /** lifecycleBucketTransition, without the status. */
  function TransitionOf(e: Event): Option<Step> {
    if Says(e, Mark(0), Standard(0)) then Some(Standard(0))
    else if Says(e, Mark(1), Standard(1)) then Some(Standard(1))
    else if Says(e, Mark(2), Standard(2)) then Some(Standard(2))
    else if Says(e, Mark(3), Standard(3)) then Some(Standard(3))
    else if Says(e, "review_to_active", Step(Review, Active)) then Some(Step(Review, Active))
    else if Says(e, "done_to_active", Step(Done, Active)) then Some(Step(Done, Active))
    else if Includes(e.kind, "root_review_blocked") then Some(Step(Review, Review))
    else None
  }

  lemma StandardApart(k: nat, j: nat)
    requires k < 4 && j < 4
    ensures Standard(k) == Standard(j) <==> k == j
  {
  }

  /** No type of a standard event contains the mark of an earlier step. */
  lemma MarksApart(k: nat, j: nat)
    requires j < k < 4
    ensures !Includes(StandardKind(k), Mark(j))
  {
    var s := StandardKind(k);
    if Includes(s, Mark(j)) {
      if j == 0 {
        var i := IncludedPair(s, Mark(0), 2);
        LacksB(k);
      } else if j == 1 {
        var i := IncludedPair(s, Mark(1), 2);
        LacksS(k);
      } else {
        var i := IncludedPair(s, Mark(2), 0);
        EBehindR(i);
      }
    }
  }

  lemma LacksB(k: nat)
    requires 0 < k < 4
    ensures 'b' !in StandardKind(k)
  {
    assert 'b' !in "codeflowmu.lifecycle.";
    assert 'b' !in "task_to_review" && 'b' !in "review_to_done" && 'b' !in "done_to_archive";
  }

  lemma LacksS(k: nat)
    requires 1 < k < 4
    ensures 's' !in StandardKind(k)
  {
    assert 's' !in "codeflowmu.lifecycle.";
    assert 's' !in "review_to_done" && 's' !in "done_to_archive";
  }

  lemma EBehindR(i: nat)
    requires i + 1 < |StandardKind(3)|
    ensures !(StandardKind(3)[i] == 'r' && StandardKind(3)[i + 1] == 'e')
  {
    var a, b := "codeflowmu.lifecycle.", "done_to_archive";
    assert 'r' !in a;
    if i >= |a| {
      assert StandardKind(3)[i] == b[i - |a|] && StandardKind(3)[i + 1] == b[i + 1 - |a|];
      assert forall k :: 0 <= k < |b| && b[k] == 'r' ==> k == 9;
    } else {
      assert StandardKind(3)[i] == a[i];
      assert a[i] in a;
    }
  }

  /** An event that carries a standard step is read as that step. */
  lemma StandardIsRead(e: Event, k: nat)
    requires k < 4 && e.kind == StandardKind(k) && Moves(e, Standard(k).from, Standard(k).to)
    ensures TransitionOf(e) == Some(Standard(k))
  {
    forall j: nat | j < k ensures !Says(e, Mark(j), Standard(j)) {
      MarksApart(k, j);
      SuccessorsAreLegal(Standard(j).from, Standard(k).from);
    }
    assert Says(e, Mark(k), Standard(k));
  }

  // ----- filling the gaps

  function Recorded(chain: seq<Event>): set<Step> {
    set e | e in chain && TransitionOf(e).Some? :: TransitionOf(e).value
  }

  /** The time the inferred steps are counted back from. */
  function Anchor(chain: seq<Event>, now: int): int
    requires chain != []
  {
    if chain[|chain| - 1].ts != 0 then chain[|chain| - 1].ts else now
  }

  function Show(id: Id): string {
    match id
    case Given(text) => text
    case Composed(step, task, ts) =>
      "synthetic-" + Name(step.from) + "-" + Name(step.to) + "-" + task + "-" + ShowInt(ts)
  }

  /** makeSyntheticLifecycleEvent for standard step k, on the way to stage t. */
  function Made(task: string, k: nat, t: nat, anchor: int): Event {
    var ts := anchor - (t - (k + 1) + 1) * 1200;
    Event(Composed(Standard(k), task, ts), ts, StandardKind(k), Name(Standard(k).from), Name(Standard(k).to), task,
          true)
  }

  /** The inferred events among the first n standard steps. */
  function Inferred(recorded: set<Step>, task: string, t: nat, anchor: int, n: nat): seq<Event>
  {
    if n == 0 then []
    else Inferred(recorded, task, t, anchor, n - 1) +
         if n <= t && Standard(n - 1) !in recorded then [Made(task, n - 1, t, anchor)] else []
  }

  /** The chain can be filled: it names its task and the target is a stage. */
  predicate Fillable(chain: seq<Event>, target: string) {
    chain != [] && chain[0].task != "" && chain[0].task != "__unknown__" && StageIndex(target) >= 0
  }

  function Missing(chain: seq<Event>, target: string, now: int): seq<Event>
    requires Fillable(chain, target)
  {
    Inferred(Recorded(chain), chain[0].task, StageIndex(target), Anchor(chain, now), 4)
  }

  function Filled(chain: seq<Event>, target: string, now: int): seq<Event> {
    if !Fillable(chain, target) || Missing(chain, target, now) == [] then chain
    else SortBy(Missing(chain, target, now) + chain, Ts)
  }

  method CollectRecorded(chain: seq<Event>) returns (recorded: set<Step>)
    ensures recorded == Recorded(chain)
  {
    recorded := {};
    for i := 0 to |chain|
      invariant recorded == Recorded(chain[..i])
    {
      RecordedNext(chain, i);
      var step := TransitionOf(chain[i]);
      if step.Some? {
        recorded := recorded + {step.value};
      }
    }
    assert chain[..|chain|] == chain;
  }

  lemma RecordedNext(chain: seq<Event>, i: nat)
    requires i < |chain|
    ensures Recorded(chain[..i + 1]) ==
      Recorded(chain[..i]) + if TransitionOf(chain[i]).Some? then {TransitionOf(chain[i]).value} else {}
  {
    assert chain[..i + 1] == chain[..i] + [chain[i]];
  }

  /** The loop over the standard steps; a step counts as recorded once it was inferred. */
  method InferMissing(start: set<Step>, task: string, t: nat, anchor: int) returns (made: seq<Event>)
    ensures made == Inferred(start, task, t, anchor, 4)
  {
    var recorded := start;
    made := [];
    for k := 0 to 4
      invariant made == Inferred(start, task, t, anchor, k)
      invariant forall j :: k <= j < 4 ==> (Standard(j) in recorded <==> Standard(j) in start)
    {
      if k + 1 <= t {
        if Standard(k) !in recorded {
          made := made + [Made(task, k, t, anchor)];
          forall j | k < j < 4 ensures Standard(k) != Standard(j) {
            StandardApart(k, j);
          }
          recorded := recorded + {Standard(k)};
        }
      }
    }
  }

  /** expandLifecycleGapsForChain */
  method ExpandLifecycleGaps(chain: seq<Event>, target: string, now: int) returns (r: seq<Event>)
    ensures r == Filled(chain, target, now)
  {
    if chain == [] { return chain; }
    var task := chain[0].task;
    if task == "" || task == "__unknown__" { return chain; }
    var recorded := CollectRecorded(chain);
    var t := StageIndex(target);
    if t < 0 { return chain; }
    var made := InferMissing(recorded, task, t, Anchor(chain, now));
    r := if made == [] then chain else SortBy(made + chain, Ts);
  }

  // ----- what filling keeps and what it adds

  lemma {:induction false} InferredAreMade(recorded: set<Step>, task: string, t: nat, anchor: int, n: nat, e: Event)
    requires n <= 4
    ensures e in Inferred(recorded, task, t, anchor, n) <==>
      exists k: nat :: k < n && k < t && Standard(k) !in recorded && e == Made(task, k, t, anchor)
  {
    if n > 0 {
      InferredAreMade(recorded, task, t, anchor, n - 1, e);
    }
  }

  lemma FilledHolds(chain: seq<Event>, target: string, now: int)
    requires Fillable(chain, target)
    ensures multiset(chain) <= multiset(Filled(chain, target, now))
    ensures forall e :: e in chain ==> e in Filled(chain, target, now)
    ensures forall e :: e in Missing(chain, target, now) ==> e in Filled(chain, target, now)
  {
    var made := Missing(chain, target, now);
    if made != [] {
      SortIsAscending(made + chain, Ts);
      SameLength(made + chain, Filled(chain, target, now));
    }
  }

  lemma MadeIsRead(task: string, k: nat, t: nat, anchor: int)
    requires k < 4
    ensures TransitionOf(Made(task, k, t, anchor)) == Some(Standard(k))
  {
    StandardIsRead(Made(task, k, t, anchor), k);
  }

  lemma RecordedIf(chain: seq<Event>, e: Event, step: Step)
    requires e in chain && TransitionOf(e) == Some(step)
    ensures step in Recorded(chain)
  {
  }

  lemma RecordedStays(chain: seq<Event>, r: seq<Event>, step: Step)
    requires step in Recorded(chain) && forall e :: e in chain ==> e in r
    ensures step in Recorded(r)
  {
    var f :| f in chain && TransitionOf(f) == Some(step);
    RecordedIf(r, f, step);
  }

  lemma MissingHas(chain: seq<Event>, target: string, now: int, k: nat)
    requires Fillable(chain, target) && k < StageIndex(target) && Standard(k) !in Recorded(chain)
    ensures Standard(k) in Recorded(Missing(chain, target, now))
  {
    var t, anchor, task := StageIndex(target), Anchor(chain, now), chain[0].task;
    var e := Made(task, k, t, anchor);
    InferredAreMade(Recorded(chain), task, t, anchor, 4, e);
    MadeIsRead(task, k, t, anchor);
    RecordedIf(Missing(chain, target, now), e, Standard(k));
  }

  /** Every recorded event is kept and every standard step up to the target is there. */
  lemma FilledCovers(chain: seq<Event>, target: string, now: int, k: nat)
    requires Fillable(chain, target) && k < StageIndex(target)
    ensures multiset(chain) <= multiset(Filled(chain, target, now))
    ensures Standard(k) in Recorded(Filled(chain, target, now))
  {
    var r := Filled(chain, target, now);
    FilledHolds(chain, target, now);
    if Standard(k) in Recorded(chain) {
      RecordedStays(chain, r, Standard(k));
    } else {
      MissingHas(chain, target, now, k);
      RecordedStays(Missing(chain, target, now), r, Standard(k));
    }
  }

  lemma {:induction false} NothingInferredIff(recorded: set<Step>, task: string, t: nat, anchor: int, n: nat)
    ensures Inferred(recorded, task, t, anchor, n) == [] <==>
      forall k: nat :: k < n && k < t ==> Standard(k) in recorded
  {
    if n > 0 {
      NothingInferredIff(recorded, task, t, anchor, n - 1);
    }
  }

  /** Filling again changes nothing, whatever the clock says. */
  lemma FilledTwice(chain: seq<Event>, target: string, now: int, later: int)
    ensures Filled(Filled(chain, target, now), target, later) == Filled(chain, target, now)
  {
    var r := Filled(chain, target, now);
    if Fillable(r, target) {
      var t := StageIndex(target);
      if Fillable(chain, target) {
        forall k: nat | k < t ensures Standard(k) in Recorded(r) {
          FilledCovers(chain, target, now, k);
        }
        NothingInferredIff(Recorded(r), r[0].task, t, Anchor(r, later), 4);
      }
    }
  }

  // ----- the order of the result

  lemma {:induction false} InferredAscend(recorded: set<Step>, task: string, t: nat, anchor: int, n: nat)
    requires n <= 4
    ensures Ascending(Inferred(recorded, task, t, anchor, n), Ts)
    ensures forall e :: e in Inferred(recorded, task, t, anchor, n) ==> e.made && e.ts <= anchor - (t - n + 1) * 1200
  {
    if n > 0 {
      InferredAscend(recorded, task, t, anchor, n - 1);
    }
  }

  lemma MissingAscend(chain: seq<Event>, target: string, now: int)
    requires Fillable(chain, target)
    ensures Ascending(Missing(chain, target, now), Ts) && forall e :: e in Missing(chain, target, now) ==> IsMade(e)
  {
    InferredAscend(Recorded(chain), chain[0].task, StageIndex(target), Anchor(chain, now), 4);
  }

  lemma RecordedInOrder(chain: seq<Event>, target: string, now: int)
    requires Fillable(chain, target) && Ascending(chain, Ts) && forall e :: e in chain ==> IsRecorded(e)
    ensures Where(Filled(chain, target, now), IsRecorded) == chain
  {
    MissingAscend(chain, target, now);
    if Missing(chain, target, now) == [] {
      WhereAll(chain, IsRecorded, true);
    } else {
      MergedSecond(Missing(chain, target, now), chain, Ts, IsRecorded);
    }
  }

  lemma InferredInOrder(chain: seq<Event>, target: string, now: int)
    requires Fillable(chain, target) && forall e :: e in chain ==> IsRecorded(e)
    ensures Where(Filled(chain, target, now), IsMade) == Missing(chain, target, now)
  {
    MissingAscend(chain, target, now);
    if Missing(chain, target, now) == [] {
      WhereAll(chain, IsMade, false);
    } else {
      MergedFirst(Missing(chain, target, now), chain, Ts, IsMade);
    }
  }

  /** The result holds the recorded events in their order and the inferred ones by stage: it is an interleaving
      of the two, ascending in time. */
  lemma FilledInterleaves(chain: seq<Event>, target: string, now: int)
    requires Fillable(chain, target) && Ascending(chain, Ts) && forall e :: e in chain ==> IsRecorded(e)
    ensures Ascending(Filled(chain, target, now), Ts)
    ensures Where(Filled(chain, target, now), IsRecorded) == chain
    ensures Where(Filled(chain, target, now), IsMade) == Missing(chain, target, now)
  {
    RecordedInOrder(chain, target, now);
    InferredInOrder(chain, target, now);
    SortIsAscending(Missing(chain, target, now) + chain, Ts);
  }

  // ----- when the result is a walk from the inbox to the target

  ghost predicate Contiguous(w: seq<Event>, t: nat) {
    |w| == t && forall k :: 0 <= k < t ==> TransitionOf(w[k]) == Some(Standard(k))
  }

  /** The recorded events are the last m steps of the path to stage t, in order. */
  ghost predicate Tail(chain: seq<Event>, t: nat, m: nat) {
    && 1 <= m <= t <= 4 && |chain| == m
    && forall i :: 0 <= i < m ==> TransitionOf(chain[i]) == Some(Standard(t - m + i))
  }

  lemma TailRecorded(chain: seq<Event>, t: nat, m: nat, k: nat)
    requires Tail(chain, t, m) && k < t
    ensures Standard(k) in Recorded(chain) <==> t - m <= k
  {
    if t - m <= k {
      assert TransitionOf(chain[k - (t - m)]) == Some(Standard(k));
    } else if Standard(k) in Recorded(chain) {
      var i :| 0 <= i < m && TransitionOf(chain[i]) == Some(Standard(k));
      StandardApart(k, t - m + i);
    }
  }

  function FirstMade(task: string, t: nat, anchor: int, n: nat): seq<Event> {
    if n == 0 then [] else FirstMade(task, t, anchor, n - 1) + [Made(task, n - 1, t, anchor)]
  }

  lemma {:induction false} FirstMadeAt(task: string, t: nat, anchor: int, n: nat)
    ensures |FirstMade(task, t, anchor, n)| == n
    ensures forall k :: 0 <= k < n ==> FirstMade(task, t, anchor, n)[k] == Made(task, k, t, anchor)
  {
    if n > 0 {
      var rest := FirstMade(task, t, anchor, n - 1);
      FirstMadeAt(task, t, anchor, n - 1);
      assert FirstMade(task, t, anchor, n) == rest + [Made(task, n - 1, t, anchor)];
      assert |rest| == n - 1;
    }
  }

  /** If exactly the steps from q on are recorded, the first q steps are inferred. */
  lemma {:induction false} InferredPrefix(recorded: set<Step>, task: string, t: nat, q: nat, anchor: int, n: nat)
    requires q <= t && forall k: nat :: k < t ==> (Standard(k) in recorded <==> q <= k)
    ensures Inferred(recorded, task, t, anchor, n) == FirstMade(task, t, anchor, if n <= q then n else q)
  {
    if n > 0 {
      InferredPrefix(recorded, task, t, q, anchor, n - 1);
    }
  }

  lemma TailInferred(chain: seq<Event>, task: string, t: nat, m: nat, anchor: int)
    requires Tail(chain, t, m)
    ensures
      var made := Inferred(Recorded(chain), task, t, anchor, 4);
      |made| == t - m && forall k :: 0 <= k < |made| ==> made[k] == Made(task, k, t, anchor)
  {
    forall k: nat | k < t ensures Standard(k) in Recorded(chain) <==> t - m <= k {
      TailRecorded(chain, t, m, k);
    }
    InferredPrefix(Recorded(chain), task, t, t - m, anchor, 4);
    FirstMadeAt(task, t, anchor, t - m);
  }

  lemma JoinAscends(a: seq<Event>, b: seq<Event>)
    requires Ascending(a, Ts) && Ascending(b, Ts) && a != [] && b != [] && a[|a| - 1].ts <= b[0].ts
    ensures Ascending(a + b, Ts)
  {
    forall i, j | 0 <= i < j < |a + b| ensures Ts((a + b)[i]) <= Ts((a + b)[j]) {
      assert i < |a| ==> Ts(a[i]) <= Ts(a[|a| - 1]);
      assert j >= |a| ==> Ts(b[0]) <= Ts(b[j - |a|]);
    }
  }

  lemma WalkOfJoin(chain: seq<Event>, task: string, t: nat, m: nat, anchor: int, made: seq<Event>)
    requires Tail(chain, t, m) && |made| == t - m
    requires forall k :: 0 <= k < |made| ==> made[k] == Made(task, k, t, anchor)
    ensures Contiguous(made + chain, t)
  {
    forall k | 0 <= k < t ensures TransitionOf((made + chain)[k]) == Some(Standard(k)) {
      if k < t - m {
        StandardIsRead(made[k], k);
      } else {
        assert (made + chain)[k] == chain[k - (t - m)];
      }
    }
  }

  /** If the recorded events are the last m steps of the path to the target, the result is the whole walk from
      the inbox to the target exactly when none is missing or the recorded ones span at most 1200 (m + 1) ms. */
  lemma ContiguousIff(chain: seq<Event>, target: string, now: int, t: nat, m: nat)
    requires Fillable(chain, target) && StageIndex(target) == t && Tail(chain, t, m) && Ascending(chain, Ts)
    ensures Contiguous(Filled(chain, target, now), t) <==>
      m == t || Anchor(chain, now) - chain[0].ts <= 1200 * (m + 1)
  {
    var task, anchor := chain[0].task, Anchor(chain, now);
    var made := Missing(chain, target, now);
    TailInferred(chain, task, t, m, anchor);
    InferredAscend(Recorded(chain), task, t, anchor, 4);
    WalkOfJoin(chain, task, t, m, anchor, made);
    if m < t {
      if anchor - chain[0].ts <= 1200 * (m + 1) {
        JoinAscends(made, chain);
        SortFixes(made + chain, Ts);
      } else if Contiguous(Filled(chain, target, now), t) {
        WalkNeedsRoom(chain, task, t, m, anchor, made, Filled(chain, target, now));
      }
    } else {
      assert made == [];
    }
  }

  /** In an ascending walk over the same events, the last inferred step comes before the first recorded one. */
  lemma WalkNeedsRoom(chain: seq<Event>, task: string, t: nat, m: nat, anchor: int, made: seq<Event>, w: seq<Event>)
    requires Tail(chain, t, m) && m < t && |made| == t - m && w == SortBy(made + chain, Ts) && Contiguous(w, t)
    requires forall k :: 0 <= k < |made| ==> made[k] == Made(task, k, t, anchor)
    ensures anchor - chain[0].ts <= 1200 * (m + 1)
  {
    SortIsAscending(made + chain, Ts);
    SameLength(made + chain, w);
    var q := t - m - 1;
    OnlyOne(chain, task, t, m, anchor, made, w[q], q);
    OnlyOne(chain, task, t, m, anchor, made, w[q + 1], q + 1);
    assert Ts(w[q]) <= Ts(w[q + 1]);
  }

  lemma OnlyOne(chain: seq<Event>, task: string, t: nat, m: nat, anchor: int, made: seq<Event>, e: Event, k: nat)
    requires Tail(chain, t, m) && |made| == t - m && k < t
    requires forall j :: 0 <= j < |made| ==> made[j] == Made(task, j, t, anchor)
    requires e in made + chain && TransitionOf(e) == Some(Standard(k))
    ensures e == (made + chain)[k]
  {
    var i :| 0 <= i < t && (made + chain)[i] == e;
    WalkOfJoin(chain, task, t, m, anchor, made);
    StandardApart(i, k);
  }

  // ----- merging with the other events

  /** What mergeReplayTimeline tells events apart by. */
  function MergeKey(e: Event): string { if Show(e.id) != "" then Show(e.id) else e.kind + ":" + ShowInt(e.ts) }

  /** mergeReplayTimeline; a cap of 0 stands for 64. */
  method MergeReplayTimeline(primary: seq<Event>, ancillary: seq<Event>, cap: nat) returns (r: seq<Event>)
    ensures r == LastOf(Firsts(SortBy(primary + ancillary, Ts), MergeKey), if cap == 0 then 64 else cap)
  {
    var merged := DropRepeats(SortBy(primary + ancillary, Ts), MergeKey);
    r := LastOf(merged, if cap == 0 then 64 else cap);
  }

  /** Before the cap cuts off the oldest, the merged timeline shows exactly the keys of both inputs; it ascends and
      shows each key once, by an earliest event with it. */
  lemma MergedTimeline(primary: seq<Event>, ancillary: seq<Event>, n: nat, a: Event, b: Event)
    ensures
      var all := Firsts(SortBy(primary + ancillary, Ts), MergeKey);
      && Ascending(LastOf(all, n), Ts) && Distinct(LastOf(all, n), MergeKey)
      && IdSet(all, MergeKey) == IdSet(primary + ancillary, MergeKey)
      && (a in all && b in primary + ancillary && MergeKey(a) == MergeKey(b) ==> a.ts <= b.ts)
  {
    var s := SortBy(primary + ancillary, Ts);
    SortedOnce(primary + ancillary, n, Ts, MergeKey);
    SortIsAscending(primary + ancillary, Ts);
    SameLength(s, primary + ancillary);
    if a in Firsts(s, MergeKey) && b in s && MergeKey(a) == MergeKey(b) {
      FirstsAreEarliest(s, MergeKey, Ts, a, b);
    }
  }
}
