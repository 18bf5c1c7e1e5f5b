/** Tasks linked to their parents: the pool shown, its forest, and the flat list of its rows. */
module TaskForest {
  import opened Text
  import opened Sorting
  import opened Saturation

  /** A task row; id and parent are "" when the row names none. */
  datatype Task = Task(id: string, parent: string, seqNo: int, time: int, collation: int)

  // ----- pulling linked children into the visible pool

  function Ids(tasks: seq<Task>): set<string> {
    set t | t in tasks && t.id != "" :: t.id
  }

  function IdOf(t: Task): string { t.id }

  function ParentOf(t: Task): string { t.parent }

  /** (parent, child) for every task that names both. */
  ghost function ChildEdges(tasks: seq<Task>): Edges { LinkEdges(tasks, ParentOf, IdOf) }

  ghost predicate AddedOnce(added: seq<Task>, visible: seq<Task>, full: seq<Task>) {
    && (forall k :: 0 <= k < |added| ==> added[k] in full && added[k].id != "" && added[k].id !in Ids(visible))
    && (forall k, m :: 0 <= k < m < |added| ==> added[k].id != added[m].id)
  }

  lemma IdsJoin(a: seq<Task>, b: seq<Task>)
    ensures Ids(a + b) == Ids(a) + Ids(b)
  {
  }

  lemma IdsOne(a: seq<Task>, t: Task)
    requires t.id != ""
    ensures Ids(a + [t]) == Ids(a) + {t.id}
  {
    assert (a + [t])[|a|] == t;
    assert forall u :: u in a + [t] <==> u in a || u == t;
  }

  /** The visible tasks followed by every task a chain of parents links to them, each id once. */
  method ExpandTasks(visible: seq<Task>, full: seq<Task>) returns (out: seq<Task>)
    ensures visible <= out && AddedOnce(out[|visible|..], visible, full)
    ensures IsLeast(Ids(out), Ids(visible), ChildEdges(full))
  {
    var seen := Ids(visible);
    ghost var edges := ChildEdges(full);
    out := visible;
    var changed := true;
    while changed
      invariant visible <= out && AddedOnce(out[|visible|..], visible, full)
      invariant seen == Ids(out) && Forced(seen, Ids(visible), edges)
      invariant !changed ==> Closed(seen, edges)
      decreases Ids(full) - seen, changed
    {
      changed := false;
      ghost var before := seen;
      for k := 0 to |full|
        invariant visible <= out && AddedOnce(out[|visible|..], visible, full)
        invariant seen == Ids(out) && Forced(seen, Ids(visible), edges)
        invariant before <= seen && (changed ==> Ids(full) - seen < Ids(full) - before) && (!changed ==> seen == before)
        invariant !changed ==> forall m :: 0 <= m < k ==> Obeyed(full[m].parent, full[m].id, seen)
      {
        var f := full[k];
        if f.id != "" && f.id !in seen && f.parent != "" && f.parent in seen {
          AddOne(visible, full, out, f);
          ForcedStep(seen, Ids(visible), edges, f.parent, f.id);
          out := out + [f];
          assert f.id in Ids(full) - seen;
          seen := seen + {f.id};
          changed := true;
        }
      }
      if !changed {
        ObeyedIsClosed(full, ParentOf, IdOf, seen);
      }
    }
  }

  lemma AddOne(visible: seq<Task>, full: seq<Task>, out: seq<Task>, f: Task)
    requires visible <= out && AddedOnce(out[|visible|..], visible, full)
    requires f in full && f.id != "" && f.id !in Ids(out)
    ensures AddedOnce((out + [f])[|visible|..], visible, full)
    ensures Ids(out + [f]) == Ids(out) + {f.id} && f.id in Ids(full)
    ensures f.parent != "" ==> (f.parent, f.id) in ChildEdges(full)
  {
    var added := out[|visible|..];
    assert (out + [f])[|visible|..] == added + [f];
    IdsOne(out, f);
    assert out == visible + added;
    IdsJoin(visible, added);
    forall k | 0 <= k < |added| ensures added[k].id != f.id {
      assert added[k] in added;
    }
  }

  // ----- parent chains in a pool

  /** The tasks by id, and the ids in order of first appearance. */
  datatype Pool = Pool(byId: map<string, Task>, order: seq<string>)

  ghost predicate Sane(p: Pool) {
    && (forall id :: id in p.byId ==> id != "" && p.byId[id].id == id)
    && (forall id :: id in p.byId <==> id in p.order)
    && (forall i, j :: 0 <= i < j < |p.order| ==> p.order[i] != p.order[j])
  }

  /** The parent, if it is in the pool. */
  function Up(p: Pool, id: string): Option<string> {
    if id in p.byId && p.byId[id].parent != "" && p.byId[id].parent in p.byId
    then Some(p.byId[id].parent) else None
  }

  /** The parent chain ends within n steps. */
  predicate EndsWithin(p: Pool, id: string, n: nat)
    decreases n
  {
    match Up(p, id)
    case None => true
    case Some(q) => n > 0 && EndsWithin(p, q, n - 1)
  }

  ghost predicate Ends(p: Pool, id: string) {
    id in p.byId && exists n: nat :: EndsWithin(p, id, n)
  }

  ghost function LeastSteps(p: Pool, id: string, n: nat): nat
    requires EndsWithin(p, id, n)
    decreases n
  {
    if n == 0 || !EndsWithin(p, id, n - 1) then n else LeastSteps(p, id, n - 1)
  }

  /** The number of ancestors in the pool. */
  ghost function Depth(p: Pool, id: string): nat
    requires Ends(p, id)
  {
    var n: nat :| EndsWithin(p, id, n);
    LeastSteps(p, id, n)
  }

  lemma {:induction false} EndsLater(p: Pool, id: string, n: nat, m: nat)
    requires EndsWithin(p, id, n) && n <= m
    ensures EndsWithin(p, id, m)
    decreases n
  {
    if Up(p, id).Some? { EndsLater(p, Up(p, id).value, n - 1, m - 1); }
  }

  lemma {:induction false} LeastHolds(p: Pool, id: string, n: nat)
    requires EndsWithin(p, id, n)
    ensures var k := LeastSteps(p, id, n); k <= n && EndsWithin(p, id, k) && (k > 0 ==> !EndsWithin(p, id, k - 1))
    decreases n
  {
    if n > 0 && EndsWithin(p, id, n - 1) { LeastHolds(p, id, n - 1); }
  }

  lemma DepthHolds(p: Pool, id: string)
    requires Ends(p, id)
    ensures EndsWithin(p, id, Depth(p, id)) && (Depth(p, id) > 0 ==> !EndsWithin(p, id, Depth(p, id) - 1))
  {
    var n: nat :| EndsWithin(p, id, n) && Depth(p, id) == LeastSteps(p, id, n);
    LeastHolds(p, id, n);
  }

  /** The depth is the only number of steps that is enough while one less is not. */
  lemma DepthIs(p: Pool, id: string, k: nat)
    requires Ends(p, id) && EndsWithin(p, id, k) && (k > 0 ==> !EndsWithin(p, id, k - 1))
    ensures Depth(p, id) == k
  {
    DepthHolds(p, id);
    var d := Depth(p, id);
    if d < k { EndsLater(p, id, d, k - 1); } else if k < d { EndsLater(p, id, k, d - 1); }
  }

  /** A chain ends exactly when the parent's does, one step earlier. */
  lemma DepthOfParent(p: Pool, id: string)
    requires id in p.byId
    ensures Up(p, id).None? ==> Ends(p, id) && Depth(p, id) == 0
    ensures Up(p, id).Some? ==> (Ends(p, id) <==> Ends(p, Up(p, id).value))
    ensures Up(p, id).Some? && Ends(p, id) ==> Depth(p, id) == Depth(p, Up(p, id).value) + 1
  {
    match Up(p, id) {
      case None =>
        assert EndsWithin(p, id, 0);
        DepthIs(p, id, 0);
      case Some(q) =>
        if Ends(p, id) {
          var n: nat :| EndsWithin(p, id, n);
          assert EndsWithin(p, q, n - 1);
        }
        if Ends(p, q) {
          DepthHolds(p, q);
          var d := Depth(p, q);
          assert EndsWithin(p, id, d + 1);
          DepthIs(p, id, d + 1);
        }
    }
  }

  /** The chain from id upwards. */
  ghost function Chain(p: Pool, id: string, n: nat): seq<string>
    requires EndsWithin(p, id, n)
    decreases n
  {
    match Up(p, id)
    case None => [id]
    case Some(q) => [id] + Chain(p, q, n - 1)
  }

  lemma {:induction false} ChainDescends(p: Pool, id: string, n: nat)
    requires Ends(p, id) && EndsWithin(p, id, n)
    ensures |Chain(p, id, n)| == Depth(p, id) + 1
    ensures forall x :: x in Chain(p, id, n) ==> Ends(p, x) && Depth(p, x) <= Depth(p, id)
    ensures NoRepeat(Chain(p, id, n))
    decreases n
  {
    DepthOfParent(p, id);
    if Up(p, id).Some? {
      var rest := Chain(p, Up(p, id).value, n - 1);
      ChainDescends(p, Up(p, id).value, n - 1);
      assert id !in rest;
      NoRepeatCons(id, rest);
    }
  }

  lemma NoRepeatCons(x: string, s: seq<string>)
    requires NoRepeat(s) && x !in s
    ensures NoRepeat([x] + s)
  {
  }

  lemma {:induction false} NoRepeatSize(s: seq<string>, all: set<string>)
    requires NoRepeat(s) && forall x :: x in s ==> x in all
    ensures |s| <= |all|
  {
    if s != [] {
      var x := s[0];
      forall y | y in s[1..] ensures y in all - {x} {
        var i :| 0 <= i < |s[1..]| && s[1..][i] == y;
        assert s[0] != s[i + 1];
      }
      NoRepeatSize(s[1..], all - {x});
    }
  }

  /** A chain that ends is shorter than the pool. */
  lemma DepthBound(p: Pool, id: string)
    requires Ends(p, id)
    ensures Depth(p, id) < |p.byId|
  {
    DepthHolds(p, id);
    ChainDescends(p, id, Depth(p, id));
    NoRepeatSize(Chain(p, id, Depth(p, id)), p.byId.Keys);
  }

  // ----- the forest, read off the pool

  /** The ids of s whose parent in the pool is `parent`, or that have none. */
  function WithParent(p: Pool, s: seq<string>, parent: Option<string>): seq<string> {
    if s == [] then []
    else WithParent(p, s[..|s| - 1], parent) + if Up(p, s[|s| - 1]) == parent then [s[|s| - 1]] else []
  }

  lemma {:induction false} WithParentHolds(p: Pool, s: seq<string>, parent: Option<string>)
    ensures forall x :: x in WithParent(p, s, parent) <==> x in s && Up(p, x) == parent
    ensures NoRepeat(s) ==> NoRepeat(WithParent(p, s, parent))
  {
    if s != [] {
      var rest, last := s[..|s| - 1], s[|s| - 1];
      assert s == rest + [last];
      WithParentHolds(p, rest, parent);
      if NoRepeat(s) { assert last !in rest; }
    }
  }

  function SeqNo(p: Pool): string -> int { id => if id in p.byId then p.byId[id].seqNo else 0 }

  /** The children in the order they are pushed. */
  function Pushed(p: Pool, id: string): seq<string> { WithParent(p, p.order, Some(id)) }

  function Unparented(p: Pool): seq<string> { WithParent(p, p.order, None) }

  lemma WithParentSnoc(p: Pool, s: seq<string>, x: string, parent: Option<string>)
    ensures WithParent(p, s + [x], parent) == WithParent(p, s, parent) + if Up(p, x) == parent then [x] else []
  {
    assert (s + [x])[..|s|] == s;
  }

  function Kids(p: Pool, id: string): seq<string> { SortBy(Pushed(p, id), SeqNo(p)) }

  function Roots(p: Pool): seq<string> { SortBy(Unparented(p), SeqNo(p)) }

  lemma NoRepeatSorted(s: seq<string>, key: string -> int)
    requires NoRepeat(s)
    ensures NoRepeat(SortBy(s, key)) && forall x :: x in SortBy(s, key) <==> x in s
  {
    SortIsAscending(s, key);
    SameLength(SortBy(s, key), s);
    NoRepeatCounts(s);
    NoRepeatCounts(SortBy(s, key));
  }

  lemma {:induction false} NoRepeatCounts(s: seq<string>)
    ensures NoRepeat(s) <==> forall x :: x in s ==> multiset(s)[x] == 1
  {
    if s != [] {
      var rest, last := s[..|s| - 1], s[|s| - 1];
      NoRepeatCounts(rest);
      assert s == rest + [last];
      NoRepeatSnoc(rest, last);
      forall x ensures multiset(s)[x] == multiset(rest)[x] + if x == last then 1 else 0 {
      }
      assert forall x :: x in rest <==> x in multiset(rest);
      if last !in rest {
        assert forall x :: x in rest ==> multiset(s)[x] == multiset(rest)[x];
      } else {
        assert multiset(s)[last] > 1;
      }
    }
  }

  lemma NoRepeatSnoc(rest: seq<string>, last: string)
    ensures NoRepeat(rest + [last]) <==> NoRepeat(rest) && last !in rest
  {
    var s := rest + [last];
    if NoRepeat(s) {
      assert forall i :: 0 <= i < |rest| ==> s[i] == rest[i] && s[i] != s[|rest|];
      assert forall i, j :: 0 <= i < j < |rest| ==> s[i] != s[j];
    }
  }

  lemma KidsAre(p: Pool, id: string)
    requires Sane(p)
    ensures NoRepeat(Kids(p, id)) && forall k :: k in Kids(p, id) <==> Up(p, k) == Some(id)
    ensures Ascending(Kids(p, id), SeqNo(p))
  {
    WithParentHolds(p, p.order, Some(id));
    NoRepeatSorted(Pushed(p, id), SeqNo(p));
    SortIsAscending(Pushed(p, id), SeqNo(p));
  }

  lemma RootsAre(p: Pool)
    requires Sane(p)
    ensures NoRepeat(Roots(p)) && forall k :: k in Roots(p) <==> k in p.byId && Up(p, k) == None
    ensures Ascending(Roots(p), SeqNo(p))
  {
    WithParentHolds(p, p.order, None);
    NoRepeatSorted(Unparented(p), SeqNo(p));
    SortIsAscending(Unparented(p), SeqNo(p));
  }

  // ----- flattening

  datatype Row = Row(id: string, depth: nat)

  /** All of ids stand at depth d of the forest. */
  ghost predicate Level(p: Pool, ids: seq<string>, d: nat) {
    forall k :: 0 <= k < |ids| ==> Ends(p, ids[k]) && Depth(p, ids[k]) == d
  }

  lemma KidsLevel(p: Pool, id: string)
    requires Sane(p) && Ends(p, id)
    ensures Level(p, Kids(p, id), Depth(p, id) + 1) && Depth(p, id) < |p.byId|
  {
    KidsAre(p, id);
    DepthBound(p, id);
    forall k | 0 <= k < |Kids(p, id)| ensures Ends(p, Kids(p, id)[k]) && Depth(p, Kids(p, id)[k]) == Depth(p, id) + 1 {
      assert Kids(p, id)[k] in Kids(p, id);
      DepthOfParent(p, Kids(p, id)[k]);
    }
  }

  /** Each node, then its subtree, then the nodes after it. */
  ghost function Preorder(p: Pool, ids: seq<string>, d: nat): seq<Row>
    requires Sane(p) && Level(p, ids, d)
    decreases |p.byId| - d, |ids|
  {
    if ids == [] then []
    else
      KidsLevel(p, ids[0]);
      [Row(ids[0], d)] + Preorder(p, Kids(p, ids[0]), d + 1) + Preorder(p, ids[1..], d)
  }

  /** x has a among its ancestors. */
  ghost predicate Below(p: Pool, x: string, a: string)
    requires Ends(p, x)
    decreases Depth(p, x)
  {
    x in p.byId && Up(p, x).Some?
    && (DepthOfParent(p, x); Up(p, x).value == a || Below(p, Up(p, x).value, a))
  }

  /** x is one of ids or stands below one of them. */
  ghost predicate Within(p: Pool, x: string, ids: seq<string>)
    requires Ends(p, x)
  {
    exists k :: 0 <= k < |ids| && (x == ids[k] || Below(p, x, ids[k]))
  }

  lemma {:induction false} BelowIsDeeper(p: Pool, x: string, a: string)
    requires Ends(p, x) && Below(p, x, a)
    ensures Ends(p, a) && Depth(p, a) < Depth(p, x)
    decreases Depth(p, x)
  {
    DepthOfParent(p, x);
    if Up(p, x).value != a { BelowIsDeeper(p, Up(p, x).value, a); }
  }

  /** x below a is a child of a or below a child of a. */
  lemma {:induction false} BelowThroughKid(p: Pool, x: string, a: string)
    requires Sane(p) && Ends(p, x)
    ensures Below(p, x, a) <==> Within(p, x, Kids(p, a))
    decreases Depth(p, x)
  {
    KidsAre(p, a);
    DepthOfParent(p, x);
    if Up(p, x).Some? {
      var q := Up(p, x).value;
      BelowThroughKid(p, q, a);
      if Below(p, x, a) {
        if q == a {
          assert x in Kids(p, a);
        } else {
          var k :| 0 <= k < |Kids(p, a)| && (q == Kids(p, a)[k] || Below(p, q, Kids(p, a)[k]));
          assert Below(p, x, Kids(p, a)[k]);
        }
      }
      if Within(p, x, Kids(p, a)) {
        var k :| 0 <= k < |Kids(p, a)| && (x == Kids(p, a)[k] || Below(p, x, Kids(p, a)[k]));
        assert Kids(p, a)[k] in Kids(p, a);
        if x != Kids(p, a)[k] && q != Kids(p, a)[k] {
          assert Within(p, q, Kids(p, a));
        } else if x != Kids(p, a)[k] {
          assert Up(p, q) == Some(a) && Below(p, q, a);
        }
      }
    } else {
      assert forall k :: k in Kids(p, a) ==> Up(p, k) == Some(a);
    }
  }

  /** One ancestor at most stands at a given depth. */
  lemma {:induction false} OneAncestorPerDepth(p: Pool, x: string, a: string, b: string)
    requires Ends(p, x) && (x == a || Below(p, x, a)) && (x == b || Below(p, x, b))
    requires Ends(p, a) && Ends(p, b) && Depth(p, a) == Depth(p, b)
    ensures a == b
    decreases Depth(p, x)
  {
    if x != a && x != b {
      DepthOfParent(p, x);
      OneAncestorPerDepth(p, Up(p, x).value, a, b);
    } else if x != a {
      BelowIsDeeper(p, x, a);
    } else if x != b {
      BelowIsDeeper(p, x, b);
    }
  }

  predicate Listed(rows: seq<Row>, x: string) { exists k :: 0 <= k < |rows| && rows[k].id == x }

  ghost predicate TrueDepths(p: Pool, rows: seq<Row>, d: nat) {
    forall k :: 0 <= k < |rows| ==> Ends(p, rows[k].id) && rows[k].depth == Depth(p, rows[k].id) >= d
  }

  predicate EachOnce(rows: seq<Row>) { forall i, j :: 0 <= i < j < |rows| ==> rows[i].id != rows[j].id }

  /** The rows are exactly the nodes within ids. */
  ghost predicate Lists(p: Pool, rows: seq<Row>, ids: seq<string>) {
    forall x :: Ends(p, x) ==> (Listed(rows, x) <==> Within(p, x, ids))
  }

  lemma ListsStep(p: Pool, ids: seq<string>, d: nat, a: seq<Row>, b: seq<Row>)
    requires Sane(p) && ids != [] && Lists(p, a, Kids(p, ids[0])) && Lists(p, b, ids[1..])
    ensures Lists(p, [Row(ids[0], d)] + a + b, ids)
  {
    forall x | Ends(p, x) ensures Listed([Row(ids[0], d)] + a + b, x) <==> Within(p, x, ids) {
      BelowThroughKid(p, x, ids[0]);
      ListedJoin(Row(ids[0], d), a, b, x);
      WithinCons(p, x, ids);
    }
  }

  lemma TrueDepthsStep(p: Pool, r: Row, d: nat, a: seq<Row>, b: seq<Row>)
    requires Ends(p, r.id) && r.depth == Depth(p, r.id) == d && TrueDepths(p, a, d + 1) && TrueDepths(p, b, d)
    ensures TrueDepths(p, [r] + a + b, d)
  {
    var s := [r] + a + b;
    forall k | 0 <= k < |s| ensures Ends(p, s[k].id) && s[k].depth == Depth(p, s[k].id) >= d {
      if 1 <= k <= |a| { assert s[k] == a[k - 1]; } else if k > |a| { assert s[k] == b[k - 1 - |a|]; }
    }
  }

  lemma LevelStep(p: Pool, ids: seq<string>, d: nat)
    requires Sane(p) && Level(p, ids, d) && ids != []
    ensures Ends(p, ids[0]) && Depth(p, ids[0]) == d < |p.byId|
    ensures Level(p, Kids(p, ids[0]), d + 1) && Level(p, ids[1..], d)
  {
    KidsLevel(p, ids[0]);
  }

  lemma ListedJoin(r: Row, a: seq<Row>, b: seq<Row>, x: string)
    ensures Listed([r] + a + b, x) <==> r.id == x || Listed(a, x) || Listed(b, x)
  {
    var s := [r] + a + b;
    assert s[0] == r;
    assert forall k :: 0 <= k < |a| ==> s[k + 1] == a[k];
    assert forall k :: 0 <= k < |b| ==> s[k + 1 + |a|] == b[k];
    if Listed(s, x) {
      var k :| 0 <= k < |s| && s[k].id == x;
      if 1 <= k <= |a| { assert a[k - 1].id == x; } else if k > |a| { assert b[k - 1 - |a|].id == x; }
    }
  }

  lemma WithinCons(p: Pool, x: string, ids: seq<string>)
    requires Ends(p, x) && ids != []
    ensures Within(p, x, ids) <==> x == ids[0] || Below(p, x, ids[0]) || Within(p, x, ids[1..])
  {
    assert forall k :: 0 <= k < |ids[1..]| ==> ids[1..][k] == ids[k + 1];
    if Within(p, x, ids) {
      var k :| 0 <= k < |ids| && (x == ids[k] || Below(p, x, ids[k]));
      if k > 0 { assert ids[1..][k - 1] == ids[k]; }
    }
    if Within(p, x, ids[1..]) {
      var k :| 0 <= k < |ids[1..]| && (x == ids[1..][k] || Below(p, x, ids[1..][k]));
      assert ids[k + 1] == ids[1..][k];
    }
  }

  /** Two different subtrees of one level share no node. */
  lemma SubtreesApart(p: Pool, ids: seq<string>, d: nat, x: string)
    requires Level(p, ids, d) && NoRepeat(ids) && ids != [] && Ends(p, x)
    ensures !((x == ids[0] || Below(p, x, ids[0])) && Within(p, x, ids[1..]))
  {
    if (x == ids[0] || Below(p, x, ids[0])) && Within(p, x, ids[1..]) {
      var k :| 0 <= k < |ids[1..]| && (x == ids[1..][k] || Below(p, x, ids[1..][k]));
      assert ids[1..][k] == ids[k + 1];
      OneAncestorPerDepth(p, x, ids[0], ids[k + 1]);
      assert false;
    }
  }

  lemma PartsApart(p: Pool, ids: seq<string>, d: nat, a: seq<Row>, b: seq<Row>)
    requires Sane(p) && Level(p, ids, d) && NoRepeat(ids) && ids != []
    requires Lists(p, a, Kids(p, ids[0])) && Lists(p, b, ids[1..])
    ensures Apart(p, Row(ids[0], d), a, b)
  {
    forall x | Ends(p, x) ensures !(x == ids[0] && Listed(a, x)) && !((x == ids[0] || Listed(a, x)) && Listed(b, x)) {
      SubtreesApart(p, ids, d, x);
      BelowThroughKid(p, x, ids[0]);
      NotBelowItself(p, x);
    }
  }

  /** The node, its subtree and the nodes after it share no id. */
  ghost predicate Apart(p: Pool, r: Row, a: seq<Row>, b: seq<Row>) {
    forall x :: Ends(p, x) ==> !(x == r.id && Listed(a, x)) && !((x == r.id || Listed(a, x)) && Listed(b, x))
  }

  lemma NotBelowItself(p: Pool, x: string)
    requires Ends(p, x)
    ensures !Below(p, x, x)
  {
    if Below(p, x, x) { BelowIsDeeper(p, x, x); assert false; }
  }

  lemma OnceJoin(p: Pool, r: Row, a: seq<Row>, b: seq<Row>, d: nat)
    requires EachOnce(a) && EachOnce(b) && TrueDepths(p, a, d + 1) && TrueDepths(p, b, d) && Ends(p, r.id)
    requires Apart(p, r, a, b)
    ensures EachOnce([r] + a + b)
  {
    var s := [r] + a + b;
    forall i, j | 0 <= i < j < |s| ensures s[i].id != s[j].id {
      if 1 <= j <= |a| { assert s[j] == a[j - 1]; assert Listed(a, s[j].id); }
      if j > |a| { assert s[j] == b[j - 1 - |a|]; assert Listed(b, s[j].id); }
      if 1 <= i <= |a| { assert s[i] == a[i - 1]; assert Listed(a, s[i].id); }
      if i > |a| { assert s[i] == b[i - 1 - |a|]; }
    }
  }

  /** All rows after i up to j are deeper than row i. */
  predicate Deeper(rows: seq<Row>, i: nat, j: nat)
    requires i <= j < |rows|
  {
    forall m :: i < m <= j ==> rows[m].depth > rows[i].depth
  }

  /** A later row belongs to the subtree of an earlier one exactly when nothing as shallow comes between. */
  ghost predicate Contiguous(p: Pool, rows: seq<Row>)
    requires TrueDepths(p, rows, 0)
  {
    forall i, j :: 0 <= i < j < |rows| ==> (Below(p, rows[j].id, rows[i].id) <==> Deeper(rows, i, j))
  }

  /** All that is claimed of the rows of one level. */
  ghost predicate Flattened(p: Pool, rows: seq<Row>, ids: seq<string>, d: nat) {
    && TrueDepths(p, rows, d) && TrueDepths(p, rows, 0) && Lists(p, rows, ids)
    && EachOnce(rows) && Contiguous(p, rows) && SiblingsInOrder(p, rows)
    && (rows == [] <==> ids == []) && (rows != [] ==> rows[0] == Row(ids[0], d))
  }

  lemma FlattenedJoin(p: Pool, ids: seq<string>, d: nat, a: seq<Row>, b: seq<Row>)
    requires Sane(p) && Level(p, ids, d) && NoRepeat(ids) && ids != [] && Ascending(ids, SeqNo(p))
    requires Flattened(p, a, Kids(p, ids[0]), d + 1) && Flattened(p, b, ids[1..], d)
    ensures Flattened(p, [Row(ids[0], d)] + a + b, ids, d)
  {
    var r := Row(ids[0], d);
    TrueDepthsStep(p, r, d, a, b);
    ListsStep(p, ids, d, a, b);
    PartsApart(p, ids, d, a, b);
    OnceJoin(p, r, a, b, d);
    ContiguousJoin(p, ids, d, a, b);
    SiblingsJoin(p, ids, d, a, b);
  }

  lemma FlattenedNothing(p: Pool, d: nat)
    ensures Flattened(p, [], [], d)
  {
  }

  lemma TailInOrder(p: Pool, ids: seq<string>)
    requires NoRepeat(ids) && Ascending(ids, SeqNo(p)) && ids != []
    ensures NoRepeat(ids[1..]) && Ascending(ids[1..], SeqNo(p))
  {
    assert forall k :: 0 <= k < |ids[1..]| ==> ids[1..][k] == ids[k + 1];
  }

  lemma {:induction false} PreorderFlattens(p: Pool, ids: seq<string>, d: nat)
    requires Sane(p) && Level(p, ids, d) && NoRepeat(ids) && Ascending(ids, SeqNo(p))
    ensures Flattened(p, Preorder(p, ids, d), ids, d)
    decreases |p.byId| - d, |ids|
  {
    if ids == [] {
      FlattenedNothing(p, d);
    } else {
      var kids, rest := Kids(p, ids[0]), ids[1..];
      LevelStep(p, ids, d);
      KidsAre(p, ids[0]);
      TailInOrder(p, ids);
      PreorderFlattens(p, kids, d + 1);
      PreorderFlattens(p, rest, d);
      FlattenedJoin(p, ids, d, Preorder(p, kids, d + 1), Preorder(p, rest, d));
    }
  }

  lemma ContiguousJoin(p: Pool, ids: seq<string>, d: nat, a: seq<Row>, b: seq<Row>)
    requires Sane(p) && Level(p, ids, d) && NoRepeat(ids) && ids != []
    requires TrueDepths(p, a, d + 1) && TrueDepths(p, b, d) && TrueDepths(p, [Row(ids[0], d)] + a + b, d)
    requires Lists(p, a, Kids(p, ids[0])) && Lists(p, b, ids[1..])
    requires Contiguous(p, a) && Contiguous(p, b)
    requires b != [] ==> b[0].depth == d
    ensures Contiguous(p, [Row(ids[0], d)] + a + b)
  {
    var s := [Row(ids[0], d)] + a + b;
    forall i, j | 0 <= i < j < |s| ensures Below(p, s[j].id, s[i].id) <==> Deeper(s, i, j) {
      if j <= |a| {
        if i == 0 { UnderNode(p, ids, d, a, b, j); } else { InLeft(p, Row(ids[0], d), a, b, d, i, j); }
      } else if i > |a| {
        InRight(p, Row(ids[0], d), a, b, d, i, j);
      } else {
        AcrossParts(p, ids, d, a, b, i, j);
      }
    }
  }

  /** Row k of a node, its subtree a and the nodes b after it. */
  function Part(r: Row, a: seq<Row>, b: seq<Row>, k: nat): Row
    requires k <= |a| + |b|
  {
    if k == 0 then r else if k <= |a| then a[k - 1] else b[k - 1 - |a|]
  }

  lemma PartAt(r: Row, a: seq<Row>, b: seq<Row>, k: nat)
    requires k <= |a| + |b|
    ensures |[r] + a + b| == 1 + |a| + |b| && ([r] + a + b)[k] == Part(r, a, b, k)
  {
  }

  lemma UnderNode(p: Pool, ids: seq<string>, d: nat, a: seq<Row>, b: seq<Row>, j: nat)
    requires Sane(p) && Level(p, ids, d) && ids != [] && Lists(p, a, Kids(p, ids[0])) && TrueDepths(p, a, d + 1)
    requires 0 < j <= |a|
    ensures var s := [Row(ids[0], d)] + a + b; Ends(p, s[j].id) && Below(p, s[j].id, s[0].id) && Deeper(s, 0, j)
  {
    var r := Row(ids[0], d);
    var s := [r] + a + b;
    PartAt(r, a, b, j);
    var x := a[j - 1].id;
    assert Ends(p, x) && Listed(a, x);
    BelowThroughKid(p, x, ids[0]);
    forall m | 0 < m <= j ensures s[m].depth > d {
      PartAt(r, a, b, m);
      assert a[m - 1].depth >= d + 1;
    }
  }

  lemma InLeft(p: Pool, r: Row, a: seq<Row>, b: seq<Row>, d: nat, i: nat, j: nat)
    requires TrueDepths(p, a, d + 1) && Contiguous(p, a) && 0 < i < j <= |a|
    ensures
      var s := [r] + a + b;
      Ends(p, s[j].id) && (Below(p, s[j].id, s[i].id) <==> Deeper(s, i, j))
  {
    var s := [r] + a + b;
    assert forall m :: 1 <= m <= |a| ==> s[m] == a[m - 1];
    assert Deeper(a, i - 1, j - 1) <==> Deeper(s, i, j) by {
      if Deeper(s, i, j) {
        forall m | i - 1 < m <= j - 1 ensures a[m].depth > a[i - 1].depth { assert s[m + 1] == a[m]; }
      }
    }
  }

  lemma InRight(p: Pool, r: Row, a: seq<Row>, b: seq<Row>, d: nat, i: nat, j: nat)
    requires TrueDepths(p, b, d) && Contiguous(p, b) && |a| < i < j <= |a| + |b|
    ensures
      var s := [r] + a + b;
      Ends(p, s[j].id) && (Below(p, s[j].id, s[i].id) <==> Deeper(s, i, j))
  {
    var s, o := [r] + a + b, |a| + 1;
    assert forall m :: o <= m < |s| ==> s[m] == b[m - o];
    assert Deeper(b, i - o, j - o) <==> Deeper(s, i, j) by {
      if Deeper(s, i, j) {
        forall m | i - o < m <= j - o ensures b[m].depth > b[i - o].depth { assert s[m + o] == b[m]; }
      }
    }
  }

  /** A row after the subtree of ids[0] is below nothing in it, and its first row is as shallow as the node. */
  lemma AcrossParts(p: Pool, ids: seq<string>, d: nat, a: seq<Row>, b: seq<Row>, i: nat, j: nat)
    requires Sane(p) && Level(p, ids, d) && NoRepeat(ids) && ids != []
    requires TrueDepths(p, a, d + 1) && TrueDepths(p, b, d)
    requires Lists(p, a, Kids(p, ids[0])) && Lists(p, b, ids[1..])
    requires i <= |a| < j <= |a| + |b| && b[0].depth == d
    ensures
      var s := [Row(ids[0], d)] + a + b;
      Ends(p, s[j].id) && !Below(p, s[j].id, s[i].id) && !Deeper(s, i, j)
  {
    var r := Row(ids[0], d);
    PartAt(r, a, b, i);
    PartAt(r, a, b, j);
    PartAt(r, a, b, |a| + 1);
    var x := b[j - 1 - |a|].id;
    assert Ends(p, x) && Listed(b, x);
    NotBelowLeft(p, ids, d, a, b, x, Part(r, a, b, i).id);
    assert Part(r, a, b, i).depth >= d;
  }

  lemma NotBelowLeft(p: Pool, ids: seq<string>, d: nat, a: seq<Row>, b: seq<Row>, x: string, y: string)
    requires Sane(p) && Level(p, ids, d) && NoRepeat(ids) && ids != []
    requires Lists(p, a, Kids(p, ids[0])) && Lists(p, b, ids[1..])
    requires Ends(p, x) && Listed(b, x) && Ends(p, y) && (y == ids[0] || Listed(a, y))
    ensures !Below(p, x, y)
  {
    SubtreesApart(p, ids, d, x);
    if y != ids[0] {
      BelowThroughKid(p, y, ids[0]);
      if Below(p, x, y) { BelowTrans(p, x, y, ids[0]); }
    }
  }

  lemma {:induction false} BelowTrans(p: Pool, x: string, a: string, b: string)
    requires Ends(p, x) && Below(p, x, a) && Ends(p, a) && Below(p, a, b)
    ensures Below(p, x, b)
    decreases Depth(p, x)
  {
    DepthOfParent(p, x);
    if Up(p, x).value != a { BelowTrans(p, Up(p, x).value, a, b); }
  }

  /** Rows under one parent follow their sequence numbers. */
  ghost predicate SiblingsInOrder(p: Pool, rows: seq<Row>) {
    forall i, j :: 0 <= i < j < |rows| && Up(p, rows[i].id) == Up(p, rows[j].id) ==>
      SeqNo(p)(rows[i].id) <= SeqNo(p)(rows[j].id)
  }

  lemma SameUpSameDepth(p: Pool, x: string, y: string)
    requires Ends(p, x) && Ends(p, y) && Up(p, x) == Up(p, y)
    ensures Depth(p, x) == Depth(p, y)
    ensures forall a :: Below(p, x, a) <==> Below(p, y, a)
  {
    DepthOfParent(p, x);
    DepthOfParent(p, y);
  }

  /** A node at the level of ids that is within them is one of them. */
  lemma WithinLevel(p: Pool, ids: seq<string>, d: nat, x: string) returns (k: nat)
    requires Level(p, ids, d) && Ends(p, x) && Depth(p, x) == d && Within(p, x, ids)
    ensures k < |ids| && ids[k] == x
  {
    k :| 0 <= k < |ids| && (x == ids[k] || Below(p, x, ids[k]));
    if x != ids[k] { BelowIsDeeper(p, x, ids[k]); assert false; }
  }

  lemma SiblingsPair(p: Pool, ids: seq<string>, d: nat, a: seq<Row>, b: seq<Row>, i: nat, j: nat)
    requires Sane(p) && Level(p, ids, d) && NoRepeat(ids) && ids != [] && Ascending(ids, SeqNo(p))
    requires Flattened(p, a, Kids(p, ids[0]), d + 1) && Flattened(p, b, ids[1..], d) && i < j <= |a| + |b|
    requires Up(p, Part(Row(ids[0], d), a, b, i).id) == Up(p, Part(Row(ids[0], d), a, b, j).id)
    ensures SeqNo(p)(Part(Row(ids[0], d), a, b, i).id) <= SeqNo(p)(Part(Row(ids[0], d), a, b, j).id)
  {
    var x, y := Part(Row(ids[0], d), a, b, i).id, Part(Row(ids[0], d), a, b, j).id;
    assert Ends(p, x) && Ends(p, y);
    SameUpSameDepth(p, x, y);
    if i <= |a| < j {
      assert Listed(b, y);
      if i == 0 {
        var k := WithinLevel(p, ids[1..], d, y);
        assert ids[k + 1] == y;
        assert SeqNo(p)(ids[0]) <= SeqNo(p)(ids[k + 1]);
      } else {
        assert Listed(a, x);
        BelowThroughKid(p, x, ids[0]);
        SubtreesApart(p, ids, d, y);
        assert false;
      }
    }
  }

  lemma SiblingsJoin(p: Pool, ids: seq<string>, d: nat, a: seq<Row>, b: seq<Row>)
    requires Sane(p) && Level(p, ids, d) && NoRepeat(ids) && ids != [] && Ascending(ids, SeqNo(p))
    requires Flattened(p, a, Kids(p, ids[0]), d + 1) && Flattened(p, b, ids[1..], d)
    ensures SiblingsInOrder(p, [Row(ids[0], d)] + a + b)
  {
    var s := [Row(ids[0], d)] + a + b;
    forall i, j | 0 <= i < j < |s| && Up(p, s[i].id) == Up(p, s[j].id)
      ensures SeqNo(p)(s[i].id) <= SeqNo(p)(s[j].id)
    {
      PartAt(Row(ids[0], d), a, b, i);
      PartAt(Row(ids[0], d), a, b, j);
      SiblingsPair(p, ids, d, a, b, i, j);
    }
  }

  // ----- the forest as it is built

  /** byId after the tasks have been read: the last task of an id counts, its place is that of the first. */
  function PoolOf(tasks: seq<Task>): (p: Pool)
    ensures Sane(p)
  {
    if tasks == [] then Pool(map[], [])
    else Enter(PoolOf(tasks[..|tasks| - 1]), tasks[|tasks| - 1])
  }

  function Enter(p: Pool, t: Task): (r: Pool)
    requires Sane(p)
    ensures Sane(r)
  {
    if t.id == "" then p
    else Pool(p.byId[t.id := t], if t.id in p.byId then p.order else p.order + [t.id])
  }

  /** The ids whose parent chain ends are the roots and what stands below them. */
  lemma {:induction false} RootsCover(p: Pool, x: string)
    requires Sane(p) && Ends(p, x)
    ensures Within(p, x, Roots(p))
    decreases Depth(p, x)
  {
    RootsAre(p);
    DepthOfParent(p, x);
    if Up(p, x).None? {
      var k :| 0 <= k < |Roots(p)| && Roots(p)[k] == x;
    } else {
      RootsCover(p, Up(p, x).value);
      var k :| 0 <= k < |Roots(p)| && (Up(p, x).value == Roots(p)[k] || Below(p, Up(p, x).value, Roots(p)[k]));
      assert Below(p, x, Roots(p)[k]);
    }
  }

  lemma RootsLevel(p: Pool)
    requires Sane(p)
    ensures Level(p, Roots(p), 0)
  {
    RootsAre(p);
    forall k | 0 <= k < |Roots(p)| ensures Ends(p, Roots(p)[k]) && Depth(p, Roots(p)[k]) == 0 {
      assert Roots(p)[k] in Roots(p);
      DepthOfParent(p, Roots(p)[k]);
    }
  }

  ghost predicate KidsSoFar(p: Pool, done: seq<string>, kids: map<string, seq<string>>) {
    forall q :: q in p.byId ==> q in kids && kids[q] == WithParent(p, done, Some(q))
  }

  lemma RootLinked(p: Pool, done: seq<string>, kids: map<string, seq<string>>, id: string)
    requires KidsSoFar(p, done, kids) && Up(p, id) == None
    ensures WithParent(p, done + [id], None) == WithParent(p, done, None) + [id]
    ensures KidsSoFar(p, done + [id], kids)
  {
    WithParentSnoc(p, done, id, None);
    forall q | q in p.byId ensures WithParent(p, done + [id], Some(q)) == WithParent(p, done, Some(q)) {
      WithParentSnoc(p, done, id, Some(q));
    }
  }

  lemma KidLinked(p: Pool, done: seq<string>, kids: map<string, seq<string>>, id: string, parent: string)
    requires KidsSoFar(p, done, kids) && Up(p, id) == Some(parent)
    ensures parent in kids
    ensures WithParent(p, done + [id], None) == WithParent(p, done, None)
    ensures KidsSoFar(p, done + [id], kids[parent := kids[parent] + [id]])
  {
    WithParentSnoc(p, done, id, None);
    forall q | q in p.byId
      ensures WithParent(p, done + [id], Some(q))
           == if q == parent then WithParent(p, done, Some(q)) + [id] else WithParent(p, done, Some(q))
    {
      WithParentSnoc(p, done, id, Some(q));
    }
  }

  /** Every children array holds its children, pushed or already sorted. */
  ghost predicate AllLinked(p: Pool, kids: map<string, seq<string>>) {
    forall x :: x in p.byId ==> x in kids && (kids[x] == Pushed(p, x) || kids[x] == Kids(p, x))
  }

  /** The nodes in done have been pushed onto their parents' children or onto the roots. */
  ghost predicate LinkedUpTo(p: Pool, done: seq<string>, kids: map<string, seq<string>>, roots: seq<string>) {
    roots == WithParent(p, done, None) && KidsSoFar(p, done, kids)
  }

  lemma NothingLinked(p: Pool, kids: map<string, seq<string>>)
    requires forall x :: x in p.byId ==> x in kids && kids[x] == []
    ensures LinkedUpTo(p, p.order[..0], kids, [])
  {
  }

  lemma EndLinked(p: Pool, kids: map<string, seq<string>>)
    requires KidsSoFar(p, p.order, kids)
    ensures AllLinked(p, kids)
  {
  }

  lemma OneMore(order: seq<string>, k: nat)
    requires k < |order|
    ensures order[..k + 1] == order[..k] + [order[k]] && order[k] in order
  {
  }

  /** Children arrays that were sorted still are. */
  ghost predicate StaySorted(p: Pool, kids: map<string, seq<string>>, kids': map<string, seq<string>>) {
    forall x :: x in p.byId && x in kids && kids[x] == Kids(p, x) ==> x in kids' && kids'[x] == Kids(p, x)
  }

  /** The children arrays of all nodes within ids are sorted. */
  ghost predicate SortedWithin(p: Pool, kids: map<string, seq<string>>, ids: seq<string>) {
    forall x :: Ends(p, x) && Within(p, x, ids) ==> x in kids && kids[x] == Kids(p, x)
  }

  lemma SameWithin(p: Pool, kids: map<string, seq<string>>, a: seq<string>, b: seq<string>)
    requires SortedWithin(p, kids, a) && forall x :: x in b ==> x in a
    ensures SortedWithin(p, kids, b)
  {
    forall x | Ends(p, x) && Within(p, x, b) ensures Within(p, x, a) {
      var k :| 0 <= k < |b| && (x == b[k] || Below(p, x, b[k]));
      assert b[k] in b;
      var m :| 0 <= m < |a| && a[m] == b[k];
    }
  }

  ghost predicate SortedSoFar(p: Pool, first: map<string, seq<string>>, kids: map<string, seq<string>>,
                              nodes: seq<string>, i: nat)
  {
    AllLinked(p, kids) && StaySorted(p, first, kids) && i <= |nodes| && SortedWithin(p, kids, nodes[..i])
  }

  lemma MoreSorted(p: Pool, first: map<string, seq<string>>, kids: map<string, seq<string>>,
                   kids': map<string, seq<string>>, nodes: seq<string>, i: nat)
    requires SortedSoFar(p, first, kids, nodes, i) && i < |nodes|
    requires AllLinked(p, kids') && StaySorted(p, kids, kids') && SortedWithin(p, kids', [nodes[i]])
    ensures SortedSoFar(p, first, kids', nodes, i + 1)
  {
    forall x | Ends(p, x) && Within(p, x, nodes[..i + 1]) ensures Within(p, x, nodes[..i]) || Within(p, x, [nodes[i]]) {
      var k :| 0 <= k < i + 1 && (x == nodes[..i + 1][k] || Below(p, x, nodes[..i + 1][k]));
      if k == i { assert [nodes[i]][0] == nodes[..i + 1][k]; } else { assert nodes[..i][k] == nodes[..i + 1][k]; }
    }
  }

  /** A children array, sorted or not, holds the children and sorts to them. */
  lemma ChildrenLevel(p: Pool, children: seq<string>, n: string)
    requires Sane(p) && Ends(p, n) && (children == Pushed(p, n) || children == Kids(p, n))
    ensures Level(p, children, Depth(p, n) + 1) && Depth(p, n) < |p.byId|
    ensures SortBy(children, SeqNo(p)) == Kids(p, n)
    ensures forall x :: x in children <==> x in Kids(p, n)
  {
    KidsAre(p, n);
    KidsLevel(p, n);
    WithParentHolds(p, p.order, Some(n));
    if children == Kids(p, n) { SortFixes(children, SeqNo(p)); }
    forall k | 0 <= k < |children| ensures Ends(p, children[k]) && Depth(p, children[k]) == Depth(p, n) + 1 {
      assert children[k] in children && children[k] in Kids(p, n);
      DepthOfParent(p, children[k]);
    }
  }

  lemma OneMoreSorted(p: Pool, kids: map<string, seq<string>>, ids: seq<string>, n: string)
    requires AllLinked(p, kids) && SortedWithin(p, kids, ids)
    ensures
      var kids' := kids[n := Kids(p, n)];
      AllLinked(p, kids') && StaySorted(p, kids, kids') && SortedWithin(p, kids', ids)
  {
  }

  lemma SortedLevel(p: Pool, nodes: seq<string>, d: nat)
    requires Level(p, nodes, d)
    ensures Level(p, SortBy(nodes, SeqNo(p)), d)
    ensures forall x :: x in SortBy(nodes, SeqNo(p)) <==> x in nodes
  {
    var sorted := SortBy(nodes, SeqNo(p));
    SortIsAscending(nodes, SeqNo(p));
    SameLength(sorted, nodes);
    forall k | 0 <= k < |sorted| ensures Ends(p, sorted[k]) && Depth(p, sorted[k]) == d {
      assert sorted[k] in nodes;
    }
  }

  /** With the nodes below n done and n's own array sorted, n's whole subtree is done. */
  lemma SortedChildren(p: Pool, kids: map<string, seq<string>>, before: seq<string>, n: string)
    requires Sane(p) && Ends(p, n) && (before == Pushed(p, n) || before == Kids(p, n))
    requires n in kids && kids[n] == SortBy(before, SeqNo(p)) && SortedWithin(p, kids, before)
    ensures SortedWithin(p, kids, [n]) && kids[n] == Kids(p, n)
  {
    ChildrenLevel(p, before, n);
    SameWithin(p, kids, before, Kids(p, n));
    forall x | Ends(p, x) && Within(p, x, [n]) ensures x in kids && kids[x] == Kids(p, x) {
      BelowThroughKid(p, x, n);
    }
  }

  lemma UnparentedLevel(p: Pool)
    requires Sane(p)
    ensures Level(p, Unparented(p), 0)
  {
    WithParentHolds(p, p.order, None);
    forall k | 0 <= k < |Unparented(p)| ensures Ends(p, Unparented(p)[k]) && Depth(p, Unparented(p)[k]) == 0 {
      assert Unparented(p)[k] in Unparented(p);
      DepthOfParent(p, Unparented(p)[k]);
    }
  }

  /** One round of the flattening loop. */
  lemma FlattenStep(p: Pool, kids: map<string, seq<string>>, nodes: seq<string>, i: nat, d: nat)
    requires Sane(p) && i < |nodes| && Level(p, nodes[i..], d) && SortedWithin(p, kids, nodes)
    ensures nodes[i] in kids && kids[nodes[i]] == Kids(p, nodes[i]) && d < |p.byId|
    ensures Level(p, Kids(p, nodes[i]), d + 1) && Level(p, nodes[i + 1..], d)
    ensures SortedWithin(p, kids, Kids(p, nodes[i]))
    ensures Preorder(p, nodes[i..], d)
         == [Row(nodes[i], d)] + Preorder(p, Kids(p, nodes[i]), d + 1) + Preorder(p, nodes[i + 1..], d)
  {
    var n, rest := nodes[i], nodes[i..];
    assert rest[0] == n && rest[1..] == nodes[i + 1..];
    LevelStep(p, rest, d);
    PreorderStep(p, rest, d);
    SubtreeSorted(p, kids, nodes, i);
  }

  lemma PreorderStep(p: Pool, ids: seq<string>, d: nat)
    requires Sane(p) && Level(p, ids, d) && ids != []
    requires Level(p, Kids(p, ids[0]), d + 1) && Level(p, ids[1..], d)
    ensures Preorder(p, ids, d) == [Row(ids[0], d)] + Preorder(p, Kids(p, ids[0]), d + 1) + Preorder(p, ids[1..], d)
  {
    LevelStep(p, ids, d);
  }

  lemma SubtreeSorted(p: Pool, kids: map<string, seq<string>>, nodes: seq<string>, i: nat)
    requires Sane(p) && i < |nodes| && Ends(p, nodes[i]) && SortedWithin(p, kids, nodes)
    ensures nodes[i] in kids && kids[nodes[i]] == Kids(p, nodes[i])
    ensures SortedWithin(p, kids, Kids(p, nodes[i]))
  {
    assert Within(p, nodes[i], nodes);
    forall x | Ends(p, x) && Within(p, x, Kids(p, nodes[i])) ensures Within(p, x, nodes) {
      BelowThroughKid(p, x, nodes[i]);
    }
  }

  /** Nodes by id: byId and order as the keys object, kids as the nodes' children arrays. */
  class Forest {
    var byId: map<string, Task>
    var order: seq<string>
    var kids: map<string, seq<string>>
    var roots: seq<string>

    constructor ()
    {
      byId, order, kids, roots := map[], [], map[], [];
    }

    function P(): Pool
      reads this
    {
      Pool(byId, order)
    }

    ghost predicate Linked()
      reads this
    {
      Sane(P()) && AllLinked(P(), kids)
    }

    method Read(tasks: seq<Task>)
      modifies this
      ensures P() == PoolOf(tasks)
      ensures forall x :: x in byId ==> x in kids && kids[x] == []
    {
      byId, order, kids, roots := map[], [], map[], [];
      for k := 0 to |tasks|
        invariant P() == PoolOf(tasks[..k])
        invariant forall x :: x in byId ==> x in kids && kids[x] == []
      {
        assert tasks[..k + 1][..k] == tasks[..k];
        var t := tasks[k];
        if t.id != "" {
          if t.id !in byId {
            order := order + [t.id];
          }
          byId := byId[t.id := t];
          kids := kids[t.id := []];
        }
      }
      assert tasks[..|tasks|] == tasks;
    }

    /** Push every node onto its parent's children, or onto the roots. */
    method Link()
      requires Sane(P()) && forall x :: x in byId ==> x in kids && kids[x] == []
      modifies this`kids, this`roots
      ensures Linked() && roots == Unparented(P())
    {
      ghost var p := P();
      roots := [];
      NothingLinked(p, kids);
      for k := 0 to |order|
        invariant P() == p && LinkedUpTo(p, order[..k], kids, roots)
      {
        OneMore(order, k);
        LinkOne(order[k], order[..k]);
      }
      assert order[..|order|] == order;
      EndLinked(p, kids);
    }

    method LinkOne(id: string, ghost done: seq<string>)
      requires Sane(P()) && id in byId && LinkedUpTo(P(), done, kids, roots)
      modifies this`kids, this`roots
      ensures LinkedUpTo(P(), done + [id], kids, roots)
    {
      var parent := byId[id].parent;
      if parent != "" && parent in byId {
        KidLinked(P(), done, kids, id, parent);
        kids := kids[parent := kids[parent] + [id]];
      } else {
        RootLinked(P(), done, kids, id);
        roots := roots + [id];
      }
    }

    /** Sort a list of siblings, then the children of each, in place. */
    method SortNodes(nodes: seq<string>, ghost p: Pool, ghost d: nat) returns (sorted: seq<string>)
      requires p == P() && Sane(p) && AllLinked(p, kids) && Level(p, nodes, d)
      modifies this`kids
      ensures AllLinked(p, kids) && sorted == SortBy(nodes, SeqNo(p))
      ensures StaySorted(p, old(kids), kids) && SortedWithin(p, kids, nodes)
      decreases |p.byId| - d, 2
    {
      sorted := SortBy(nodes, SeqNo(P()));
      SortedLevel(p, nodes, d);
      SortEach(sorted, p, d);
      SameWithin(p, kids, sorted, nodes);
    }

    method SortEach(nodes: seq<string>, ghost p: Pool, ghost d: nat)
      requires p == P() && Sane(p) && AllLinked(p, kids) && Level(p, nodes, d)
      modifies this`kids
      ensures AllLinked(p, kids) && StaySorted(p, old(kids), kids) && SortedWithin(p, kids, nodes)
      decreases |p.byId| - d, 1
    {
      ghost var first := kids;
      for i := 0 to |nodes|
        invariant SortedSoFar(p, first, kids, nodes, i)
      {
        ghost var before := kids;
        SortChildren(nodes[i], p);
        MoreSorted(p, first, before, kids, nodes, i);
      }
      assert nodes[..|nodes|] == nodes;
    }

    method SortChildren(n: string, ghost p: Pool)
      requires p == P() && Sane(p) && AllLinked(p, kids) && Ends(p, n)
      modifies this`kids
      ensures AllLinked(p, kids) && StaySorted(p, old(kids), kids) && SortedWithin(p, kids, [n])
      decreases |p.byId| - Depth(p, n), 0
    {
      var children := kids[n];
      ChildrenLevel(p, children, n);
      if children != [] {
        var sorted := SortNodes(children, p, Depth(p, n) + 1);
        ghost var mid := kids;
        kids := kids[n := sorted];
        OneMoreSorted(p, mid, children, n);
      }
      SortedChildren(p, kids, children, n);
    }

    /** buildTaskTreeFromItems */
    method BuildTree(tasks: seq<Task>)
      modifies this
      ensures P() == PoolOf(tasks) && roots == Roots(P())
      ensures SortedWithin(P(), kids, roots)
    {
      Read(tasks);
      Link();
      SortRoots(P());
    }

    method SortRoots(ghost p: Pool)
      requires p == P() && Linked() && roots == Unparented(p)
      modifies this`kids, this`roots
      ensures roots == Roots(p) && SortedWithin(p, kids, roots)
    {
      UnparentedLevel(p);
      var sorted := SortNodes(roots, p, 0);
      SortedLevel(p, roots, 0);
      SameWithin(p, kids, roots, sorted);
      roots := sorted;
    }

    /** flattenTaskTreeFromItems: rows for nodes and everything below them, after those in acc. */
    method Flatten(nodes: seq<string>, depth: nat, acc: seq<Row>, ghost p: Pool) returns (out: seq<Row>)
      requires p == P() && Sane(p) && Level(p, nodes, depth) && SortedWithin(p, kids, nodes)
      ensures out == acc + Preorder(p, nodes, depth)
      decreases |p.byId| - depth, 1
    {
      out := acc;
      assert nodes[0..] == nodes;
      for i := 0 to |nodes|
        invariant Level(p, nodes[i..], depth)
        invariant out + Preorder(p, nodes[i..], depth) == acc + Preorder(p, nodes, depth)
      {
        FlattenStep(p, kids, nodes, i, depth);
        ghost var before := out;
        out := FlattenNode(nodes[i], depth, out, p);
        Shift(before, Row(nodes[i], depth), Preorder(p, Kids(p, nodes[i]), depth + 1),
              Preorder(p, nodes[i + 1..], depth));
      }
    }

    /** One node and its children. */
    method FlattenNode(n: string, depth: nat, acc: seq<Row>, ghost p: Pool) returns (out: seq<Row>)
      requires p == P() && Sane(p) && n in kids && kids[n] == Kids(p, n) && depth < |p.byId|
      requires Level(p, Kids(p, n), depth + 1) && SortedWithin(p, kids, Kids(p, n))
      ensures out == acc + [Row(n, depth)] + Preorder(p, Kids(p, n), depth + 1)
      decreases |p.byId| - depth, 0
    {
      out := acc + [Row(n, depth)];
      if kids[n] != [] {
        out := Flatten(kids[n], depth + 1, out, p);
      }
    }
  }

  lemma Shift(out: seq<Row>, r: Row, a: seq<Row>, b: seq<Row>)
    ensures out + ([r] + a + b) == (out + [r] + a) + b
  {
  }

  /** The rows shown for a list of tasks. */
  method ShowTasks(tasks: seq<Task>) returns (rows: seq<Row>)
    ensures ForestRows(PoolOf(tasks), rows)
  {
    ghost var p := PoolOf(tasks);
    RowsOfForest(p);
    var forest := new Forest();
    forest.BuildTree(tasks);
    rows := forest.Flatten(forest.roots, 0, [], p);
    assert rows == Preorder(p, Roots(p), 0);
  }

  /** What the flat list of a pool is: exactly the ids whose parent chain ends, each once, at the depth of
      its number of ancestors, every subtree in one stretch behind its node, siblings by sequence number. */
  ghost predicate ForestRows(p: Pool, rows: seq<Row>) {
    && TrueDepths(p, rows, 0)
    && (forall x :: Listed(rows, x) <==> Ends(p, x))
    && EachOnce(rows) && Contiguous(p, rows) && SiblingsInOrder(p, rows)
  }

  lemma RowsOfForest(p: Pool)
    requires Sane(p)
    ensures Level(p, Roots(p), 0) && ForestRows(p, Preorder(p, Roots(p), 0))
  {
    RootsLevel(p);
    RootsAre(p);
    PreorderFlattens(p, Roots(p), 0);
    forall x | Ends(p, x) ensures Within(p, x, Roots(p)) { RootsCover(p, x); }
  }

  // ----- closure and forest together

  ghost predicate UniqueIds(tasks: seq<Task>) {
    forall t, u :: t in tasks && u in tasks && t.id == u.id != "" ==> t == u
  }

  lemma {:induction false} PoolHolds(tasks: seq<Task>)
    ensures forall id :: id in PoolOf(tasks).byId <==> id in Ids(tasks)
    ensures forall id :: id in PoolOf(tasks).byId ==> PoolOf(tasks).byId[id] in tasks
  {
    if tasks != [] {
      var rest, last := tasks[..|tasks| - 1], tasks[|tasks| - 1];
      PoolHolds(rest);
      assert tasks == rest + [last];
      if last.id != "" { IdsOne(rest, last); } else { IdsJoin(rest, [last]); }
    }
  }

  /** A chain that ends in the whole pool ends in a smaller pool of the same tasks. */
  lemma {:induction false} EndsInPart(part: Pool, whole: Pool, id: string, n: nat)
    requires forall x :: x in part.byId ==> x in whole.byId && part.byId[x] == whole.byId[x]
    requires id in part.byId && EndsWithin(whole, id, n)
    ensures EndsWithin(part, id, n)
    decreases n
  {
    if Up(part, id).Some? {
      assert Up(whole, id) == Up(part, id);
      EndsInPart(part, whole, Up(part, id).value, n - 1);
    }
  }

  /** Without cycles, pulling in the linked children and flattening shows exactly the visible ids
      and everything a chain of parent links leads to from them. */
  lemma ShownAreVisibleAndDescendants(visible: seq<Task>, full: seq<Task>, out: seq<Task>, rows: seq<Row>)
    requires UniqueIds(full) && (forall t :: t in visible ==> t in full)
    requires forall id :: id in PoolOf(full).byId ==> Ends(PoolOf(full), id)
    requires visible <= out && AddedOnce(out[|visible|..], visible, full)
    requires IsLeast(Ids(out), Ids(visible), ChildEdges(full)) && ForestRows(PoolOf(out), rows)
    ensures forall x :: Listed(rows, x) <==> Reachable(ChildEdges(full), Ids(visible), x)
  {
    PartEnds(visible, full, out);
    ShownWhenAllEnd(Ids(visible), ChildEdges(full), out, rows);
  }

  /** Where every chain ends, the rows show the pool, which is what the links lead to. */
  lemma ShownWhenAllEnd(seeds: set<string>, edges: Edges, out: seq<Task>, rows: seq<Row>)
    requires forall x :: x in PoolOf(out).byId ==> Ends(PoolOf(out), x)
    requires IsLeast(Ids(out), seeds, edges) && ForestRows(PoolOf(out), rows)
    ensures forall x :: Listed(rows, x) <==> Reachable(edges, seeds, x)
  {
    PoolHolds(out);
    LeastIsReachable(Ids(out), seeds, edges);
    forall x ensures Listed(rows, x) <==> x in Ids(out) {
      assert Listed(rows, x) <==> Ends(PoolOf(out), x);
    }
  }

  lemma PartEnds(visible: seq<Task>, full: seq<Task>, out: seq<Task>)
    requires UniqueIds(full) && (forall t :: t in visible ==> t in full)
    requires forall id :: id in PoolOf(full).byId ==> Ends(PoolOf(full), id)
    requires visible <= out && AddedOnce(out[|visible|..], visible, full)
    ensures forall x :: x in PoolOf(out).byId ==> Ends(PoolOf(out), x)
  {
    var part, whole := PoolOf(out), PoolOf(full);
    PoolHolds(out);
    PoolHolds(full);
    OutInFull(visible, full, out);
    AllFromWhole(part, whole, full);
    forall x | x in part.byId ensures Ends(part, x) {
      var n: nat :| EndsWithin(whole, x, n);
      EndsInPart(part, whole, x, n);
    }
  }

  lemma OutInFull(visible: seq<Task>, full: seq<Task>, out: seq<Task>)
    requires (forall t :: t in visible ==> t in full) && visible <= out && AddedOnce(out[|visible|..], visible, full)
    ensures forall t :: t in out ==> t in full
  {
    forall t | t in out ensures t in full {
      var i :| 0 <= i < |out| && out[i] == t;
      if i >= |visible| { assert out[|visible|..][i - |visible|] == t; } else { assert visible[i] == t; }
    }
  }

  lemma AllFromWhole(part: Pool, whole: Pool, full: seq<Task>)
    requires UniqueIds(full) && Sane(part) && Sane(whole)
    requires forall x :: x in part.byId ==> part.byId[x] in full
    requires forall x :: x in whole.byId <==> x in Ids(full)
    requires forall x :: x in whole.byId ==> whole.byId[x] in full
    ensures forall x :: x in part.byId ==> x in whole.byId && part.byId[x] == whole.byId[x]
  {
    forall x | x in part.byId ensures x in whole.byId && part.byId[x] == whole.byId[x] {
      assert part.byId[x] in full && part.byId[x].id == x;
    }
  }
}
