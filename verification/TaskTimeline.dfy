/** Grouping tasks by chasing their roots, cycles tolerated. */
module TaskTimeline {
  import opened Text
  import opened Sorting
  import opened TaskForest

  // ----- roots

  /** The last ancestor of a task whose chain ends. */
  ghost function Top(p: Pool, id: string): string
    requires Ends(p, id)
    decreases Depth(p, id)
  {
    DepthOfParent(p, id);
    if Up(p, id).None? then id else Top(p, Up(p, id).value)
  }

  /** The root a task is grouped under: its last ancestor, or itself if its chain never ends. */
  ghost function RootOf(p: Pool, id: string): string {
    if Ends(p, id) then Top(p, id) else id
  }

  ghost function DepthOrZero(p: Pool, id: string): nat {
    if Ends(p, id) then Depth(p, id) else 0
  }

  lemma {:induction false} TopHolds(p: Pool, id: string)
    requires Ends(p, id)
    ensures Ends(p, Top(p, id)) && Up(p, Top(p, id)) == None
    ensures Top(p, id) == id || Below(p, id, Top(p, id))
    decreases Depth(p, id)
  {
    DepthOfParent(p, id);
    if Up(p, id).Some? { TopHolds(p, Up(p, id).value); }
  }

  /** An ended chain leads to r exactly when r is its root. */
  lemma {:induction false} RootIffAbove(p: Pool, x: string, r: string)
    requires Ends(p, x) && r in p.byId && Up(p, r) == None
    ensures RootOf(p, x) == r <==> x == r || Below(p, x, r)
    decreases Depth(p, x)
  {
    DepthOfParent(p, x);
    TopHolds(p, x);
    if Up(p, x).Some? { RootIffAbove(p, Up(p, x).value, r); }
  }

  lemma RootIsOwnRoot(p: Pool, id: string)
    requires Sane(p) && id in p.byId
    ensures RootOf(p, id) in p.byId && RootOf(p, RootOf(p, id)) == RootOf(p, id)
  {
    if Ends(p, id) {
      TopHolds(p, id);
    }
  }

  /** rootFor */
  method RootFor(p: Pool, origin: string) returns (root: string)
    requires Sane(p) && origin in p.byId
    ensures root == RootOf(p, origin)
  {
    var current := origin;
    var seen: set<string> := {};
    while current != "" && current !in seen
      invariant current in p.byId && seen <= p.byId.Keys
      invariant Ends(p, origin) <==> Ends(p, current)
      invariant Ends(p, current) ==> Top(p, origin) == Top(p, current)
      invariant Ends(p, current) ==> forall x :: x in seen ==> Ends(p, x) && Depth(p, x) > Depth(p, current)
      decreases p.byId.Keys - seen
    {
      seen := seen + {current};
      DepthOfParent(p, current);
      var parent := p.byId[current].parent;
      if parent == "" || parent !in p.byId {
        return current;
      }
      current := parent;
    }
    return origin;
  }

  /** depthFor, for the root the task is grouped under. */
  method DepthFor(p: Pool, id: string, rootId: string) returns (d: nat)
    requires Sane(p) && id in p.byId && rootId == RootOf(p, id)
    ensures d == if DepthOrZero(p, id) < 8 then DepthOrZero(p, id) else 8
  {
    var current := id;
    var depth := 0;
    var seen: set<string> := {};
    if Ends(p, id) { TopHolds(p, id); }
    while current != "" && current != rootId && current !in seen
      invariant current in p.byId && seen <= p.byId.Keys
      invariant if Ends(p, id) then Ends(p, current) && depth + Depth(p, current) == Depth(p, id)
                                    && Top(p, current) == rootId
                else current == rootId && depth == 0
      invariant Ends(p, id) ==> forall x :: x in seen ==> Ends(p, x) && Depth(p, x) > Depth(p, current)
      decreases p.byId.Keys - seen
    {
      seen := seen + {current};
      DepthOfParent(p, current);
      var parent := p.byId[current].parent;
      if parent == "" || parent !in p.byId {
        break;
      }
      depth := depth + 1;
      current := parent;
    }
    if Ends(p, id) { DepthOfParent(p, current); }
    d := if depth < 8 then depth else 8;
  }

  // ----- groups

  predicate Named(t: Task) { t.id != "" }

  function WithIds(tasks: seq<Task>): seq<Task> { Where(tasks, Named) }

  /** The tasks of list that are grouped under r, in order. */
  ghost function Members(p: Pool, list: seq<Task>, r: string): seq<Task> {
    if list == [] then []
    else Members(p, list[..|list| - 1], r) + if RootOf(p, list[|list| - 1].id) == r then [list[|list| - 1]] else []
  }

  lemma {:induction false} MembersHold(p: Pool, list: seq<Task>, r: string)
    ensures forall t :: t in Members(p, list, r) <==> t in list && RootOf(p, t.id) == r
  {
    if list != [] {
      assert list == list[..|list| - 1] + [list[|list| - 1]];
      MembersHold(p, list[..|list| - 1], r);
    }
  }

  datatype Node = Node(task: Task, depth: nat)

  datatype Group = Group(rootId: string, root: Task, nodes: seq<Node>)

  function Tasks(nodes: seq<Node>): seq<Task> {
    seq(|nodes|, i requires 0 <= i < |nodes| => nodes[i].task)
  }

  function RootTime(g: Group): int { g.root.time }

  function Recency(g: Group): int { -g.root.time }

  /** a precedes b in a group: the root first, then by time, then by collation. */
  predicate NodeOrder(rootId: string, a: Task, b: Task) {
    if (a.id == rootId) != (b.id == rootId) then a.id == rootId
    else a.time < b.time || (a.time == b.time && a.collation <= b.collation)
  }

  /** One group: exactly the tasks of its root, the root first, every node at its depth capped at 8. */
  ghost predicate GroupHolds(p: Pool, list: seq<Task>, g: Group) {
    && g.rootId in p.byId && g.root == p.byId[g.rootId]
    && multiset(Tasks(g.nodes)) == multiset(Members(p, list, g.rootId))
    && g.nodes != [] && g.nodes[0].task.id == g.rootId
    && (forall i, j :: 0 <= i < j < |g.nodes| ==> NodeOrder(g.rootId, g.nodes[i].task, g.nodes[j].task))
    && (forall n :: n in g.nodes ==> Capped(p, n, DepthOrZero(p, n.task.id)))
  }

  /** The timeline: one group for every root, newest root first. */
  ghost predicate Timeline(p: Pool, list: seq<Task>, groups: seq<Group>) {
    && (forall g :: g in groups ==> GroupHolds(p, list, g))
    && (forall i, j :: 0 <= i < j < |groups| ==> groups[i].rootId != groups[j].rootId)
    && (forall t :: t in list ==> exists g :: g in groups && g.rootId == RootOf(p, t.id))
    && (forall i, j :: 0 <= i < j < |groups| ==> RootTime(groups[i]) >= RootTime(groups[j]))
  }

  // ----- sorting one group

  function TimeOf(t: Task): int { t.time }

  function CollationOf(t: Task): int { t.collation }

  function NotRoot(rootId: string): Task -> int { (t: Task) => if t.id == rootId then 0 else 1 }

  /** The comparator of the node sort, applied as three stable sorts from its least to its most significant part. */
  function SortNodes(rootId: string, nodes: seq<Task>): seq<Task> {
    SortBy(SortBy(SortBy(nodes, CollationOf), TimeOf), NotRoot(rootId))
  }

  /** Equal keys keep their order in a stable sort. */
  ghost predicate InOrder<T>(s: seq<T>, le: (T, T) -> bool) {
    forall i, j :: 0 <= i < j < |s| ==> le(s[i], s[j])
  }

  ghost predicate Refines<T>(s: seq<T>, key: T -> int, le: (T, T) -> bool) {
    forall i, j :: 0 <= i < j < |s| ==> key(s[i]) < key(s[j]) || (key(s[i]) == key(s[j]) && le(s[i], s[j]))
  }

  lemma {:induction false} InsertRefines<T>(s: seq<T>, x: T, key: T -> int, le: (T, T) -> bool)
    requires Refines(s, key, le) && forall y :: y in s ==> le(y, x)
    ensures Refines(Insert(s, x, key), key, le)
  {
    if s != [] && key(s[|s| - 1]) > key(x) {
      var rest, last := s[..|s| - 1], s[|s| - 1];
      assert s == rest + [last];
      InsertRefines(rest, x, key, le);
      InsertAdds(rest, x, key);
      RestBefore(rest, last, key, le);
      InsertedBefore(rest, x, Insert(rest, x, key), last, key, le);
    }
  }

  ghost predicate Before<T>(y: T, z: T, key: T -> int, le: (T, T) -> bool) {
    key(y) < key(z) || (key(y) == key(z) && le(y, z))
  }

  lemma RestBefore<T>(rest: seq<T>, last: T, key: T -> int, le: (T, T) -> bool)
    requires Refines(rest + [last], key, le)
    ensures forall y :: y in rest ==> Before(y, last, key, le)
  {
    forall y | y in rest ensures Before(y, last, key, le) {
      var k :| 0 <= k < |rest| && rest[k] == y;
      assert (rest + [last])[k] == y && (rest + [last])[|rest|] == last;
    }
  }

  lemma InsertedBefore<T>(rest: seq<T>, x: T, r: seq<T>, last: T, key: T -> int, le: (T, T) -> bool)
    requires multiset(r) == multiset(rest) + multiset{x} && key(x) < key(last)
    requires forall y :: y in rest ==> Before(y, last, key, le)
    ensures forall i :: 0 <= i < |r| ==> Before(r[i], last, key, le)
  {
    forall i | 0 <= i < |r| ensures Before(r[i], last, key, le) {
      assert r[i] in multiset(r);
    }
  }

  lemma {:induction false} SortRefines<T>(s: seq<T>, key: T -> int, le: (T, T) -> bool)
    requires InOrder(s, le)
    ensures Refines(SortBy(s, key), key, le)
  {
    if s != [] {
      var rest, last := s[..|s| - 1], s[|s| - 1];
      assert forall i :: 0 <= i < |rest| ==> rest[i] == s[i];
      SortRefines(rest, key, le);
      SortIsAscending(rest, key);
      var sorted := SortBy(rest, key);
      forall y | y in sorted ensures le(y, last) {
        assert y in multiset(sorted) && y in multiset(rest);
        var i :| 0 <= i < |rest| && rest[i] == y;
        assert le(s[i], s[|s| - 1]);
      }
      InsertRefines(sorted, last, key, le);
    }
  }

  predicate ByCollation(a: Task, b: Task) { a.collation <= b.collation }

  predicate ByTime(a: Task, b: Task) { a.time < b.time || (a.time == b.time && a.collation <= b.collation) }

  lemma NodesSorted(rootId: string, nodes: seq<Task>)
    ensures multiset(SortNodes(rootId, nodes)) == multiset(nodes)
    ensures forall i, j :: 0 <= i < j < |SortNodes(rootId, nodes)| ==>
      NodeOrder(rootId, SortNodes(rootId, nodes)[i], SortNodes(rootId, nodes)[j])
  {
    var s1 := SortBy(nodes, CollationOf);
    var s2 := SortBy(s1, TimeOf);
    SortIsAscending(nodes, CollationOf);
    forall i, j | 0 <= i < j < |s1| ensures ByCollation(s1[i], s1[j]) {
      assert CollationOf(s1[i]) <= CollationOf(s1[j]);
    }
    SortRefines(s1, TimeOf, ByCollation);
    SortIsAscending(s1, TimeOf);
    forall i, j | 0 <= i < j < |s2| ensures ByTime(s2[i], s2[j]) {
      assert TimeOf(s2[i]) < TimeOf(s2[j]) || (TimeOf(s2[i]) == TimeOf(s2[j]) && ByCollation(s2[i], s2[j]));
    }
    SortRefines(s2, NotRoot(rootId), ByTime);
    SortIsAscending(s2, NotRoot(rootId));
    var s3 := SortNodes(rootId, nodes);
    forall i, j | 0 <= i < j < |s3| ensures NodeOrder(rootId, s3[i], s3[j]) {
      var key := NotRoot(rootId);
      assert key(s3[i]) < key(s3[j]) || (key(s3[i]) == key(s3[j]) && ByTime(s3[i], s3[j]));
    }
  }

  /** A group that holds a task called like its root lists such a task first. */
  lemma RootFirst(rootId: string, nodes: seq<Task>, t: Task)
    requires t in nodes && t.id == rootId
    ensures SortNodes(rootId, nodes) != [] && SortNodes(rootId, nodes)[0].id == rootId
  {
    var s := SortNodes(rootId, nodes);
    NodesSorted(rootId, nodes);
    SameLength(s, nodes);
    var i :| 0 <= i < |s| && s[i] == t;
    if i > 0 { assert NodeOrder(rootId, s[0], s[i]); }
  }

  predicate Capped(p: Pool, n: Node, d: nat) { n.depth == if d < 8 then d else 8 }

  method WithDepths(p: Pool, rootId: string, sorted: seq<Task>) returns (nodes: seq<Node>)
    requires Sane(p) && forall t :: t in sorted ==> t.id in p.byId && RootOf(p, t.id) == rootId
    ensures Tasks(nodes) == sorted
    ensures forall n :: n in nodes ==> Capped(p, n, DepthOrZero(p, n.task.id))
  {
    nodes := [];
    for k := 0 to |sorted|
      invariant Tasks(nodes) == sorted[..k]
      invariant forall n :: n in nodes ==> Capped(p, n, DepthOrZero(p, n.task.id))
    {
      assert sorted[k] in sorted;
      var d := DepthFor(p, sorted[k].id, rootId);
      nodes := nodes + [Node(sorted[k], d)];
      assert Tasks(nodes) == sorted[..k + 1];
    }
    assert sorted[..|sorted|] == sorted;
  }

  /** The tasks of one root, sorted and given their depths. */
  method MakeGroup(p: Pool, ghost list: seq<Task>, rootId: string, nodes: seq<Task>) returns (g: Group)
    requires Sane(p) && (forall t :: t in list ==> t.id in p.byId) && rootId in p.byId
    requires nodes == Members(p, list, rootId) && exists t :: t in nodes && t.id == rootId
    ensures GroupHolds(p, list, g) && g.rootId == rootId
  {
    var sorted := SortNodes(rootId, nodes);
    GroupReady(p, list, rootId, nodes);
    var rows := WithDepths(p, rootId, sorted);
    g := Group(rootId, p.byId[rootId], rows);
    GroupMade(p, list, g, nodes);
  }

  lemma GroupReady(p: Pool, list: seq<Task>, rootId: string, nodes: seq<Task>)
    requires nodes == Members(p, list, rootId) && forall t :: t in list ==> t.id in p.byId
    ensures forall t :: t in SortNodes(rootId, nodes) ==> t.id in p.byId && RootOf(p, t.id) == rootId
  {
    NodesSorted(rootId, nodes);
    SameLength(SortNodes(rootId, nodes), nodes);
    MembersHold(p, list, rootId);
  }

  lemma GroupMade(p: Pool, list: seq<Task>, g: Group, nodes: seq<Task>)
    requires g.rootId in p.byId && g.root == p.byId[g.rootId]
    requires nodes == Members(p, list, g.rootId) && exists t :: t in nodes && t.id == g.rootId
    requires Tasks(g.nodes) == SortNodes(g.rootId, nodes)
    requires forall n :: n in g.nodes ==> Capped(p, n, DepthOrZero(p, n.task.id))
    ensures GroupHolds(p, list, g)
  {
    var sorted := SortNodes(g.rootId, nodes);
    NodesSorted(g.rootId, nodes);
    var t :| t in nodes && t.id == g.rootId;
    RootFirst(g.rootId, nodes, t);
    OrderOfNodes(g.rootId, g.nodes, sorted);
  }

  lemma OrderOfNodes(rootId: string, nodes: seq<Node>, sorted: seq<Task>)
    requires Tasks(nodes) == sorted
    requires forall i, j :: 0 <= i < j < |sorted| ==> NodeOrder(rootId, sorted[i], sorted[j])
    ensures forall i, j :: 0 <= i < j < |nodes| ==> NodeOrder(rootId, nodes[i].task, nodes[j].task)
    ensures |nodes| == |sorted| && (sorted != [] ==> nodes[0].task == sorted[0])
  {
    assert forall i :: 0 <= i < |nodes| ==> sorted[i] == nodes[i].task;
  }

  /** The keys object of the groups, in order, and the tasks pushed under each key. */
  ghost predicate Collected(p: Pool, list: seq<Task>, keys: seq<string>, grouped: map<string, seq<Task>>) {
    && NoRepeat(keys) && (forall r :: r in keys <==> r in grouped)
    && (forall r :: r in grouped ==> grouped[r] == Members(p, list, r) && grouped[r] != [])
    && (forall r :: r !in grouped ==> Members(p, list, r) == [])
  }

  lemma MembersSnoc(p: Pool, list: seq<Task>, t: Task)
    ensures forall q :: Members(p, list + [t], q) == Members(p, list, q) + if q == RootOf(p, t.id) then [t] else []
  {
    assert (list + [t])[..|list|] == list;
  }

  lemma CollectKnown(p: Pool, list: seq<Task>, keys: seq<string>, grouped: map<string, seq<Task>>, t: Task, r: string)
    requires Collected(p, list, keys, grouped) && r == RootOf(p, t.id) && r in grouped
    ensures Collected(p, list + [t], keys, grouped[r := grouped[r] + [t]])
  {
    MembersSnoc(p, list, t);
  }

  lemma CollectNew(p: Pool, list: seq<Task>, keys: seq<string>, grouped: map<string, seq<Task>>, t: Task, r: string)
    requires Collected(p, list, keys, grouped) && r == RootOf(p, t.id) && r !in grouped
    ensures Collected(p, list + [t], keys + [r], grouped[r := [t]])
  {
    MembersSnoc(p, list, t);
    KeysNew(keys, grouped, r, [t]);
    assert Members(p, list, r) == [];
    assert [] + [t] == [t];
  }

  lemma KeysNew(keys: seq<string>, grouped: map<string, seq<Task>>, r: string, nodes: seq<Task>)
    requires NoRepeat(keys) && r !in grouped && forall q :: q in keys <==> q in grouped
    ensures NoRepeat(keys + [r]) && forall q :: q in keys + [r] <==> q in grouped[r := nodes]
  {
    NoRepeatSnoc(keys, r);
  }

  method Collect(p: Pool, list: seq<Task>) returns (keys: seq<string>, grouped: map<string, seq<Task>>)
    requires Sane(p) && forall t :: t in list ==> t.id in p.byId
    ensures Collected(p, list, keys, grouped)
  {
    keys, grouped := [], map[];
    for k := 0 to |list|
      invariant Collected(p, list[..k], keys, grouped)
    {
      assert list[..k + 1] == list[..k] + [list[k]];
      keys, grouped := Push(p, list[..k], keys, grouped, list[k]);
    }
    assert list[..|list|] == list;
  }

  function PushUnder(grouped: map<string, seq<Task>>, r: string, t: Task): map<string, seq<Task>>
    requires r in grouped
  {
    grouped[r := grouped[r] + [t]]
  }

  method Push(p: Pool, ghost list: seq<Task>, keys: seq<string>, grouped: map<string, seq<Task>>, t: Task)
    returns (keys': seq<string>, grouped': map<string, seq<Task>>)
    requires Sane(p) && t.id in p.byId && Collected(p, list, keys, grouped)
    ensures Collected(p, list + [t], keys', grouped')
  {
    var r := RootFor(p, t.id);
    if r !in grouped {
      CollectNew(p, list, keys, grouped, t, r);
      keys' := keys + [r];
      grouped' := PushUnder(grouped[r := []], r, t);
      assert grouped' == grouped[r := [t]];
    } else {
      CollectKnown(p, list, keys, grouped, t, r);
      keys' := keys;
      grouped' := PushUnder(grouped, r, t);
    }
  }

  /** The root of a group is itself in the group. */
  lemma RootIsMember(p: Pool, list: seq<Task>, r: string)
    requires Sane(p) && Members(p, list, r) != []
    requires forall t :: t in list ==> t.id in p.byId
    requires forall id :: id in p.byId ==> p.byId[id] in list
    ensures r in p.byId && exists t :: t in Members(p, list, r) && t.id == r
  {
    MembersHold(p, list, r);
    var t := Members(p, list, r)[0];
    assert t in Members(p, list, r);
    RootIsOwnRoot(p, t.id);
    assert p.byId[r] in Members(p, list, r);
  }

  lemma ListFitsPool(tasks: seq<Task>)
    ensures forall t :: t in WithIds(tasks) ==> t.id in PoolOf(tasks).byId
    ensures forall id :: id in PoolOf(tasks).byId ==> PoolOf(tasks).byId[id] in WithIds(tasks)
  {
    PoolHolds(tasks);
    WhereHolds(tasks, Named);
  }

  /** buildMobileTaskTimelineGroups */
  method BuildGroups(tasks: seq<Task>) returns (groups: seq<Group>)
    ensures Timeline(PoolOf(tasks), WithIds(tasks), groups)
  {
    var p, list := PoolOf(tasks), WithIds(tasks);
    ListFitsPool(tasks);
    var keys, grouped := Collect(p, list);
    var made := MakeGroups(p, list, keys, grouped);
    groups := SortBy(made, Recency);
    TimelineMade(p, list, keys, grouped, made);
  }

  /** The groups made so far, in the order of the keys. */
  ghost predicate MadeFor(p: Pool, list: seq<Task>, keys: seq<string>, made: seq<Group>) {
    |made| <= |keys| && forall k :: 0 <= k < |made| ==> made[k].rootId == keys[k] && GroupHolds(p, list, made[k])
  }

  lemma MadeMore(p: Pool, list: seq<Task>, keys: seq<string>, made: seq<Group>, g: Group)
    requires MadeFor(p, list, keys, made) && |made| < |keys| && g.rootId == keys[|made|] && GroupHolds(p, list, g)
    ensures MadeFor(p, list, keys, made + [g])
  {
  }

  method MakeGroups(p: Pool, ghost list: seq<Task>, keys: seq<string>, grouped: map<string, seq<Task>>)
    returns (made: seq<Group>)
    requires Sane(p) && Collected(p, list, keys, grouped)
    requires forall t :: t in list ==> t.id in p.byId
    requires forall id :: id in p.byId ==> p.byId[id] in list
    ensures |made| == |keys| && MadeFor(p, list, keys, made)
  {
    made := [];
    for k := 0 to |keys|
      invariant |made| == k && MadeFor(p, list, keys, made)
    {
      assert keys[k] in keys;
      RootIsMember(p, list, keys[k]);
      var g := MakeGroup(p, list, keys[k], grouped[keys[k]]);
      MadeMore(p, list, keys, made, g);
      made := made + [g];
    }
  }

  lemma NewestRootFirst(made: seq<Group>)
    ensures forall i, j :: 0 <= i < j < |SortBy(made, Recency)| ==>
      RootTime(SortBy(made, Recency)[i]) >= RootTime(SortBy(made, Recency)[j])
  {
    var groups := SortBy(made, Recency);
    SortIsAscending(made, Recency);
    forall i, j | 0 <= i < j < |groups| ensures RootTime(groups[i]) >= RootTime(groups[j]) {
      assert Recency(groups[i]) <= Recency(groups[j]);
    }
  }

  lemma AllHold(p: Pool, list: seq<Task>, keys: seq<string>, made: seq<Group>, g: Group)
    requires MadeFor(p, list, keys, made) && g in made
    ensures GroupHolds(p, list, g)
  {
    var k :| 0 <= k < |made| && made[k] == g;
  }

  lemma TimelineMade(p: Pool, list: seq<Task>, keys: seq<string>, grouped: map<string, seq<Task>>, made: seq<Group>)
    requires Collected(p, list, keys, grouped) && |made| == |keys| && MadeFor(p, list, keys, made)
    ensures Timeline(p, list, SortBy(made, Recency))
  {
    var groups := SortBy(made, Recency);
    SortIsAscending(made, Recency);
    SameLength(groups, made);
    NewestRootFirst(made);
    forall t | t in list ensures exists g :: g in groups && g.rootId == RootOf(p, t.id) {
      EveryRootHasAGroup(p, list, keys, grouped, made, t);
    }
    RootsApart(made, groups, keys);
    forall g | g in groups ensures GroupHolds(p, list, g) {
      AllHold(p, list, keys, made, g);
    }
  }

  lemma EveryRootHasAGroup(p: Pool, list: seq<Task>, keys: seq<string>, grouped: map<string, seq<Task>>,
                           made: seq<Group>, t: Task)
    requires Collected(p, list, keys, grouped) && |made| == |keys| && t in list
    requires forall k :: 0 <= k < |made| ==> made[k].rootId == keys[k]
    ensures exists g :: g in made && g.rootId == RootOf(p, t.id)
  {
    var r := RootOf(p, t.id);
    MembersHold(p, list, r);
    assert t in Members(p, list, r);
    assert r in keys;
    var k :| 0 <= k < |keys| && keys[k] == r;
    assert made[k] in made;
  }

  function RootIds(groups: seq<Group>): seq<string> {
    seq(|groups|, i requires 0 <= i < |groups| => groups[i].rootId)
  }

  lemma {:induction false} RootIdsCount(groups: seq<Group>, r: string)
    ensures multiset(RootIds(groups))[r] == Count(groups, HasRoot(r))
  {
    if groups != [] {
      var rest, last := groups[..|groups| - 1], groups[|groups| - 1];
      RootIdsCount(rest, r);
      assert RootIds(groups) == RootIds(rest) + [last.rootId];
    }
  }

  function HasRoot(r: string): Group -> bool { (g: Group) => g.rootId == r }

  /** Reordering groups keeps their roots apart. */
  lemma RootsApart(made: seq<Group>, groups: seq<Group>, keys: seq<string>)
    requires multiset(groups) == multiset(made) && |made| == |keys| && NoRepeat(keys)
    requires forall k :: 0 <= k < |made| ==> made[k].rootId == keys[k]
    ensures forall i, j :: 0 <= i < j < |groups| ==> groups[i].rootId != groups[j].rootId
  {
    assert RootIds(made) == keys;
    forall r ensures multiset(RootIds(groups))[r] == multiset(keys)[r] {
      RootIdsCount(groups, r);
      RootIdsCount(made, r);
      CountPermuted(groups, made, HasRoot(r));
    }
    assert multiset(RootIds(groups)) == multiset(keys);
    NoRepeatCounts(keys);
    SameLength(RootIds(groups), keys);
    NoRepeatCounts(RootIds(groups));
    assert forall i :: 0 <= i < |groups| ==> RootIds(groups)[i] == groups[i].rootId;
  }

  // ----- the two views of one pool

  predicate Shows(g: Group, x: string) { exists k :: 0 <= k < |g.nodes| && g.nodes[k].task.id == x }

  lemma GroupMembers(p: Pool, list: seq<Task>, g: Group)
    requires GroupHolds(p, list, g)
    ensures forall t :: t in Tasks(g.nodes) <==> t in list && RootOf(p, t.id) == g.rootId
    ensures forall k :: 0 <= k < |g.nodes| ==> g.nodes[k].task in list && RootOf(p, g.nodes[k].task.id) == g.rootId
  {
    SameLength(Tasks(g.nodes), Members(p, list, g.rootId));
    MembersHold(p, list, g.rootId);
    assert forall k :: 0 <= k < |g.nodes| ==>
      g.nodes[k].task == Tasks(g.nodes)[k] && Tasks(g.nodes)[k] in Tasks(g.nodes);
  }

  /** Whatever the links, every task with an id is in one group and in no other. */
  lemma InExactlyOneGroup(p: Pool, list: seq<Task>, groups: seq<Group>, t: Task) returns (i: nat)
    requires Timeline(p, list, groups) && t in list
    ensures i < |groups| && t in Tasks(groups[i].nodes)
    ensures forall j :: 0 <= j < |groups| && j != i ==> t !in Tasks(groups[j].nodes)
  {
    var g :| g in groups && g.rootId == RootOf(p, t.id);
    i :| 0 <= i < |groups| && groups[i] == g;
    GroupMembers(p, list, g);
    forall j | 0 <= j < |groups| && j != i ensures t !in Tasks(groups[j].nodes) {
      GroupMembers(p, list, groups[j]);
    }
  }

  /** The ids a group shows are the ids of the pool with its root. */
  lemma GroupShows(tasks: seq<Task>, g: Group, x: string)
    requires GroupHolds(PoolOf(tasks), WithIds(tasks), g)
    ensures Shows(g, x) <==> x in PoolOf(tasks).byId && RootOf(PoolOf(tasks), x) == g.rootId
  {
    var p, list := PoolOf(tasks), WithIds(tasks);
    ListFitsPool(tasks);
    GroupMembers(p, list, g);
    if x in p.byId && RootOf(p, x) == g.rootId {
      var t := p.byId[x];
      assert t in Tasks(g.nodes);
      var k :| 0 <= k < |g.nodes| && Tasks(g.nodes)[k] == t;
      assert g.nodes[k].task.id == x;
    }
  }

  /** The tree of a root: the root and what stands below it. */
  ghost predicate InTree(p: Pool, x: string, r: string) {
    Ends(p, x) && (x == r || Below(p, x, r))
  }

  /** A group whose root's chain ends is the tree of that root in the flat list, with depths capped at 8;
      any other group is one id on a cycle or below one, which the flat list leaves out. */
  lemma GroupMatchesForest(tasks: seq<Task>, rows: seq<Row>, g: Group)
    requires GroupHolds(PoolOf(tasks), WithIds(tasks), g) && ForestRows(PoolOf(tasks), rows)
    ensures Listed(rows, g.rootId) ==>
      (exists k :: 0 <= k < |rows| && rows[k] == Row(g.rootId, 0))
      && forall x :: Shows(g, x) <==> Listed(rows, x) && InTree(PoolOf(tasks), x, g.rootId)
    ensures !Listed(rows, g.rootId) ==> forall x :: Shows(g, x) <==> x == g.rootId
    ensures forall n, k :: n in g.nodes && 0 <= k < |rows| && rows[k].id == n.task.id ==>
      n.depth == if rows[k].depth < 8 then rows[k].depth else 8
  {
    var p := PoolOf(tasks);
    if Listed(rows, g.rootId) {
      RootOfTree(p, rows, g.rootId, tasks, g);
    }
    forall x ensures Shows(g, x) ==> InTreeOrSame(p, x, g.rootId) {
      GroupShows(tasks, g, x);
      if Shows(g, x) { RootSplits(p, x, g.rootId); }
    }
    forall x
      ensures InTreeOrSame(p, x, g.rootId) && x in p.byId && (Ends(p, g.rootId) ==> Up(p, g.rootId) == None)
              ==> Shows(g, x)
    {
      GroupShows(tasks, g, x);
      if InTreeOrSame(p, x, g.rootId) && x in p.byId && (Ends(p, g.rootId) ==> Up(p, g.rootId) == None) {
        TreeHasRoot(p, x, g.rootId);
      }
    }
    forall n, k | n in g.nodes && 0 <= k < |rows| && rows[k].id == n.task.id
      ensures n.depth == if rows[k].depth < 8 then rows[k].depth else 8
    {
      assert Listed(rows, rows[k].id) && Capped(p, n, DepthOrZero(p, n.task.id));
    }
  }

  ghost predicate InTreeOrSame(p: Pool, x: string, r: string) {
    if Ends(p, r) then InTree(p, x, r) else x == r
  }

  lemma RootSplits(p: Pool, x: string, r: string)
    requires x in p.byId && RootOf(p, x) == r
    ensures InTreeOrSame(p, x, r) && (Ends(p, r) ==> Up(p, r) == None)
  {
    if Ends(p, x) { TopHolds(p, x); }
  }

  lemma TreeHasRoot(p: Pool, x: string, r: string)
    requires x in p.byId && r in p.byId && InTreeOrSame(p, x, r) && (Ends(p, r) ==> Up(p, r) == None)
    ensures RootOf(p, x) == r
  {
    if Ends(p, r) { RootIffAbove(p, x, r); }
  }

  /** The root of a listed group stands at depth 0. */
  lemma RootOfTree(p: Pool, rows: seq<Row>, r: string, tasks: seq<Task>, g: Group)
    requires p == PoolOf(tasks) && r == g.rootId && GroupHolds(p, WithIds(tasks), g)
    requires ForestRows(p, rows) && Listed(rows, r)
    ensures Up(p, r) == None && exists k :: 0 <= k < |rows| && rows[k] == Row(r, 0)
  {
    GroupShows(tasks, g, r);
    assert Shows(g, g.nodes[0].task.id);
    RootSplits(p, r, RootOf(p, r));
    DepthOfParent(p, r);
    var k :| 0 <= k < |rows| && rows[k].id == r;
    assert rows[k].depth == Depth(p, r) == 0;
  }

  /** Every tree of the flat list has its group. */
  lemma TreeHasGroup(tasks: seq<Task>, groups: seq<Group>, rows: seq<Row>, k: nat) returns (g: Group)
    requires Timeline(PoolOf(tasks), WithIds(tasks), groups) && ForestRows(PoolOf(tasks), rows)
    requires k < |rows| && rows[k].depth == 0
    ensures g in groups && g.rootId == rows[k].id
  {
    var p, id := PoolOf(tasks), rows[k].id;
    ListFitsPool(tasks);
    PoolHolds(tasks);
    RootAtDepthZero(p, rows, k);
    g := GroupOf(p, WithIds(tasks), groups, p.byId[id]);
  }

  lemma GroupOf(p: Pool, list: seq<Task>, groups: seq<Group>, t: Task) returns (g: Group)
    requires t in list && forall u :: u in list ==> exists h :: h in groups && h.rootId == RootOf(p, u.id)
    ensures g in groups && g.rootId == RootOf(p, t.id)
  {
    g :| g in groups && g.rootId == RootOf(p, t.id);
  }

  lemma RootAtDepthZero(p: Pool, rows: seq<Row>, k: nat)
    requires Sane(p) && ForestRows(p, rows) && k < |rows| && rows[k].depth == 0
    ensures rows[k].id in p.byId && p.byId[rows[k].id].id == rows[k].id && RootOf(p, rows[k].id) == rows[k].id
  {
    var id := rows[k].id;
    assert Listed(rows, id);
    DepthOfParent(p, id);
    RootIffAbove(p, id, id);
  }
}
