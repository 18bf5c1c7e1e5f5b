/** The two closures of the home reactor: which tasks an archived thread takes along, and which tasks a replay
    covers. */
module Projection {
  import opened Text
  import opened Saturation

  /** id is read from the file name or the task id, fileId from the file name alone; raw is the task's own scope. */
  datatype Task = Task(id: string, fileId: string, parent: string, raw: string)

  /** A ledger thread: its root and its members, as ids ("" where the text holds none). */
  datatype Thread = Thread(root: string, members: seq<string>)

  function FileIdOf(t: Task): string { t.fileId }

  function ParentOf(t: Task): string { t.parent }

  ghost function ChildEdges(tasks: seq<Task>): Edges { LinkEdges(tasks, ParentOf, FileIdOf) }

  function Named(ids: seq<string>): set<string> { set id | id in ids && id != "" }

  function FileIds(tasks: seq<Task>): set<string> { set t | t in tasks :: t.fileId }

  // ----- the archive projection

  /** The last task with the id. */
  function Lookup(tasks: seq<Task>, id: string): Option<Task> {
    if tasks == [] then None
    else if tasks[|tasks| - 1].id == id then Some(tasks[|tasks| - 1])
    else Lookup(tasks[..|tasks| - 1], id)
  }

  predicate IsArchived(tasks: seq<Task>, th: Thread) {
    th.root != "" && Lookup(tasks, th.root).Some? && Lookup(tasks, th.root).value.raw == "archive"
  }

  /** The members of the threads whose root is archived. */
  function ArchivedMembers(tasks: seq<Task>, threads: seq<Thread>): set<string> {
    set th, id | th in threads && IsArchived(tasks, th) && id in th.members && id != "" :: id
  }

  lemma ArchivedMembersNext(tasks: seq<Task>, threads: seq<Thread>, k: nat)
    requires k < |threads|
    ensures ArchivedMembers(tasks, threads[..k + 1]) ==
      ArchivedMembers(tasks, threads[..k]) + if IsArchived(tasks, threads[k]) then Named(threads[k].members) else {}
  {
    assert threads[..k + 1] == threads[..k] + [threads[k]];
  }

  ghost predicate AllArchive(scopes: map<string, string>) { forall id :: id in scopes ==> scopes[id] == "archive" }

  /** taskById: later tasks replace earlier ones of the same id. */
  method IndexTasks(tasks: seq<Task>) returns (byId: map<string, Task>)
    ensures forall id :: id != "" ==>
      (id in byId <==> Lookup(tasks, id).Some?) && (id in byId ==> Lookup(tasks, id) == Some(byId[id]))
  {
    byId := map[];
    for k := 0 to |tasks|
      invariant forall id :: id != "" ==>
        (id in byId <==> Lookup(tasks[..k], id).Some?) && (id in byId ==> Lookup(tasks[..k], id) == Some(byId[id]))
    {
      assert tasks[..k + 1][..k] == tasks[..k];
      if tasks[k].id != "" {
        byId := byId[tasks[k].id := tasks[k]];
      }
    }
    assert tasks[..|tasks|] == tasks;
  }

  method AbsorbThread(th: Thread, scopes: map<string, string>) returns (r: map<string, string>)
    requires AllArchive(scopes)
    ensures AllArchive(r) && r.Keys == scopes.Keys + Named(th.members)
  {
    r := scopes;
    for k := 0 to |th.members|
      invariant AllArchive(r) && r.Keys == scopes.Keys + Named(th.members[..k])
    {
      assert th.members[..k + 1] == th.members[..k] + [th.members[k]];
      if th.members[k] != "" {
        r := r[th.members[k] := "archive"];
      }
    }
    assert th.members[..|th.members|] == th.members;
  }

  /** The task part of rebuildThreadScopeProjection. */
  method RebuildThreadScopes(tasks: seq<Task>, threads: seq<Thread>) returns (scopes: map<string, string>)
    ensures AllArchive(scopes)
    ensures IsLeast(scopes.Keys, ArchivedMembers(tasks, threads), ChildEdges(tasks))
  {
    var byId := IndexTasks(tasks);
    scopes := map[];
    for k := 0 to |threads|
      invariant AllArchive(scopes) && scopes.Keys == ArchivedMembers(tasks, threads[..k])
    {
      ArchivedMembersNext(tasks, threads, k);
      var root := threads[k].root;
      if root != "" && root in byId && byId[root].raw == "archive" {
        scopes := AbsorbThread(threads[k], scopes);
      }
    }
    assert threads[..|threads|] == threads;
    scopes := FollowParents(tasks, scopes);
  }

  /** Its closure along parents. */
  method FollowParents(tasks: seq<Task>, start: map<string, string>) returns (scopes: map<string, string>)
    requires AllArchive(start)
    ensures AllArchive(scopes) && IsLeast(scopes.Keys, start.Keys, ChildEdges(tasks))
  {
    scopes := start;
    ghost var seeds, edges := start.Keys, ChildEdges(tasks);
    var changed := true;
    while changed
      invariant AllArchive(scopes) && seeds <= scopes.Keys && Forced(scopes.Keys, seeds, edges)
      invariant !changed ==> Closed(scopes.Keys, edges)
      decreases FileIds(tasks) - scopes.Keys, changed
    {
      changed := false;
      ghost var before := scopes.Keys;
      for k := 0 to |tasks|
        invariant AllArchive(scopes) && seeds <= before <= scopes.Keys && Forced(scopes.Keys, seeds, edges)
        invariant if changed then FileIds(tasks) - scopes.Keys < FileIds(tasks) - before else scopes.Keys == before
        invariant !changed ==> forall m :: 0 <= m < k ==> Obeyed(tasks[m].parent, tasks[m].fileId, scopes.Keys)
      {
        var t := tasks[k];
        if t.fileId != "" && t.fileId !in scopes && t.parent != "" && t.parent in scopes {
          LinkIsEdge(tasks, ParentOf, FileIdOf, t);
          assert t.fileId in FileIds(tasks) - scopes.Keys;
          ForcedStep(scopes.Keys, seeds, edges, t.parent, t.fileId);
          scopes := scopes[t.fileId := scopes[t.parent]];
          changed := true;
        }
      }
      if !changed {
        ObeyedIsClosed(tasks, ParentOf, FileIdOf, scopes.Keys);
      }
    }
  }

  /** normScope for a task. */
  function NormScope(scopes: map<string, string>, t: Task): string {
    if t.id != "" && t.id in scopes then scopes[t.id] else t.raw
  }

  /** A task is shown as archived if a chain of children leads to it from a member of an archived thread;
      every other task keeps its own scope. */
  lemma ProjectedScope(tasks: seq<Task>, threads: seq<Thread>, scopes: map<string, string>, t: Task)
    requires AllArchive(scopes) && IsLeast(scopes.Keys, ArchivedMembers(tasks, threads), ChildEdges(tasks))
    ensures NormScope(scopes, t) ==
      if t.id != "" && Reachable(ChildEdges(tasks), ArchivedMembers(tasks, threads), t.id) then "archive" else t.raw
  {
    LeastIsReachable(scopes.Keys, ArchivedMembers(tasks, threads), ChildEdges(tasks));
  }

  // ----- the tasks of a replay

  /** Two ids of one thread lead to each other. */
  function ThreadEdges(threads: seq<Thread>): Edges {
    set th, a, b | th in threads && a in Named(th.members) && b in Named(th.members) :: (a, b)
  }

  ghost function ReplayEdges(tasks: seq<Task>, threads: seq<Thread>): Edges { ChildEdges(tasks) + ThreadEdges(threads) }

  function Members(threads: seq<Thread>): set<string> { set th, id | th in threads && id in Named(th.members) :: id }

  predicate WholeThread(th: Thread, s: set<string>) { Named(th.members) * s == {} || Named(th.members) <= s }

  lemma WholeThreadsAreClosed(threads: seq<Thread>, s: set<string>)
    requires forall m :: 0 <= m < |threads| ==> WholeThread(threads[m], s)
    ensures Closed(s, ThreadEdges(threads))
  {
    forall e | e in ThreadEdges(threads) && e.0 in s ensures e.1 in s {
      var th, a, b :| th in threads && a in Named(th.members) && b in Named(th.members) && (a, b) == e;
      assert WholeThread(th, s);
      assert a in Named(th.members) * s;
    }
  }

  lemma {:induction false} ForcedThread(s: set<string>, seeds: set<string>, edges: Edges, th: Thread,
                                        threads: seq<Thread>)
    requires Forced(s, seeds, edges) && ThreadEdges(threads) <= edges && th in threads
    requires Named(th.members) * s != {}
    ensures Forced(s + Named(th.members), seeds, edges)
  {
    var a :| a in Named(th.members) * s;
    forall t: set<string> | seeds <= t && Closed(t, edges) ensures s + Named(th.members) <= t {
      forall b | b in Named(th.members) ensures b in t {
        assert (a, b) in ThreadEdges(threads);
        assert (a, b).0 in t;
      }
    }
  }

  /** What one pass keeps: the set grew from before inside the universe, and did so exactly if flagged. */
  ghost predicate Pass(ids: set<string>, before: set<string>, seeds: set<string>, edges: Edges, changed: bool,
                       universe: set<string>) {
    && seeds <= before <= ids && Forced(ids, seeds, edges)
    && ids - before <= universe && (changed <==> ids != before)
  }

  method AddChildren(tasks: seq<Task>, start: set<string>, ghost seeds: set<string>, ghost edges: Edges,
                     ghost universe: set<string>)
    returns (ids: set<string>, changed: bool)
    requires seeds <= start && Forced(start, seeds, edges) && ChildEdges(tasks) <= edges && FileIds(tasks) <= universe
    ensures Pass(ids, start, seeds, edges, changed, universe)
    ensures !changed ==> Closed(start, ChildEdges(tasks))
  {
    ids, changed := start, false;
    for k := 0 to |tasks|
      invariant Pass(ids, start, seeds, edges, changed, universe)
      invariant !changed ==> forall m :: 0 <= m < k ==> Obeyed(tasks[m].parent, tasks[m].fileId, start)
    {
      var t := tasks[k];
      if t.fileId != "" && t.parent != "" && t.parent in ids && t.fileId !in ids {
        LinkIsEdge(tasks, ParentOf, FileIdOf, t);
        assert t.fileId in FileIds(tasks);
        ForcedStep(ids, seeds, edges, t.parent, t.fileId);
        ids, changed := ids + {t.fileId}, true;
      }
    }
    if !changed {
      ObeyedIsClosed(tasks, ParentOf, FileIdOf, start);
    }
  }

  method AddThreads(threads: seq<Thread>, start: set<string>, ghost seeds: set<string>, ghost edges: Edges,
                    ghost universe: set<string>)
    returns (ids: set<string>, changed: bool)
    requires seeds <= start && Forced(start, seeds, edges) && ThreadEdges(threads) <= edges
    requires Members(threads) <= universe
    ensures Pass(ids, start, seeds, edges, changed, universe)
    ensures !changed ==> Closed(start, ThreadEdges(threads))
  {
    ids, changed := start, false;
    for k := 0 to |threads|
      invariant Pass(ids, start, seeds, edges, changed, universe)
      invariant !changed ==> forall m :: 0 <= m < k ==> WholeThread(threads[m], start)
    {
      var members := Named(threads[k].members);
      if members * ids != {} {
        ForcedThread(ids, seeds, edges, threads[k], threads);
        assert members <= Members(threads);
        if !(members <= ids) {
          ids, changed := ids + members, true;
        }
      }
    }
    if !changed {
      WholeThreadsAreClosed(threads, start);
    }
  }

  /** collectReplayTaskIds: the least set with the seeds, the children of its tasks and the threads it touches. */
  method CollectReplayTaskIds(seedIds: seq<string>, tasks: seq<Task>, threads: seq<Thread>) returns (ids: set<string>)
    ensures IsLeast(ids, Named(seedIds), ReplayEdges(tasks, threads))
  {
    ids := Named(seedIds);
    ghost var seeds, edges, universe := ids, ReplayEdges(tasks, threads), FileIds(tasks) + Members(threads);
    var changed := true;
    while changed
      invariant seeds <= ids && Forced(ids, seeds, edges)
      invariant !changed ==> Closed(ids, edges)
      decreases universe - ids, changed
    {
      ghost var before := ids;
      var grown, byThread: bool;
      ids, grown := AddChildren(tasks, ids, seeds, edges, universe);
      ids, byThread := AddThreads(threads, ids, seeds, edges, universe);
      changed := grown || byThread;
      if changed {
        assert before < ids;
        ghost var x :| x in ids && x !in before;
        assert x in universe - before && x !in universe - ids;
      } else {
        assert ids == before;
      }
    }
  }
}
