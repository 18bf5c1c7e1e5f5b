/** Least sets closed under "if the premise is in, so is the conclusion". */
module Saturation {

  type Edges = set<(string, string)>

  ghost predicate Closed(s: set<string>, edges: Edges) {
    forall e :: e in edges && e.0 in s ==> e.1 in s
  }

  /** s is the least set that contains the seeds and is closed. */
  ghost predicate IsLeast(s: set<string>, seeds: set<string>, edges: Edges) {
    && seeds <= s && Closed(s, edges)
    && forall t: set<string> :: seeds <= t && Closed(t, edges) ==> s <= t
  }

  /** Every member of s is forced: it is in each closed set that contains the seeds. */
  ghost predicate Forced(s: set<string>, seeds: set<string>, edges: Edges) {
    forall t: set<string> :: seeds <= t && Closed(t, edges) ==> s <= t
  }

  /** (parent, child) for every item that names both. */
  ghost function LinkEdges<T(!new)>(items: seq<T>, parent: T -> string, child: T -> string): Edges {
    set t | t in items && child(t) != "" && parent(t) != "" :: (parent(t), child(t))
  }

  lemma LinkIsEdge<T(!new)>(items: seq<T>, parent: T -> string, child: T -> string, t: T)
    requires t in items && child(t) != "" && parent(t) != ""
    ensures (parent(t), child(t)) in LinkEdges(items, parent, child)
  {
  }

  /** A link with both ends named is respected by s. */
  predicate Obeyed(parent: string, child: string, s: set<string>) {
    child == "" || parent == "" || parent !in s || child in s
  }

  lemma ObeyedIsClosed<T(!new)>(items: seq<T>, parent: T -> string, child: T -> string, s: set<string>)
    requires forall m :: 0 <= m < |items| ==> Obeyed(parent(items[m]), child(items[m]), s)
    ensures Closed(s, LinkEdges(items, parent, child))
  {
    forall e | e in LinkEdges(items, parent, child) && e.0 in s ensures e.1 in s {
      var t :| t in items && child(t) != "" && parent(t) != "" && (parent(t), child(t)) == e;
      assert Obeyed(parent(t), child(t), s);
    }
  }

  lemma ForcedStep(s: set<string>, seeds: set<string>, edges: Edges, a: string, b: string)
    requires Forced(s, seeds, edges) && a in s && (a, b) in edges
    ensures Forced(s + {b}, seeds, edges)
  {
    forall t: set<string> | seeds <= t && Closed(t, edges) ensures s + {b} <= t {
      assert (a, b).0 in t;
    }
  }

  /** b follows from a through a chain of edges. */
  ghost predicate Leads(edges: Edges, a: string, b: string, n: nat)
    decreases n
  {
    if n == 0 then a == b else exists c :: (c, b) in edges && Leads(edges, a, c, n - 1)
  }

  lemma {:induction false} ClosedUnderChains(s: set<string>, edges: Edges, a: string, b: string, n: nat)
    requires Closed(s, edges) && a in s && Leads(edges, a, b, n)
    ensures b in s
    decreases n
  {
    if n > 0 {
      var c :| (c, b) in edges && Leads(edges, a, c, n - 1);
      ClosedUnderChains(s, edges, a, c, n - 1);
      assert (c, b).1 in s;
    }
  }

  ghost predicate Reachable(edges: Edges, seeds: set<string>, b: string) {
    exists a, n: nat :: a in seeds && Leads(edges, a, b, n)
  }

  /** The least set is exactly what chains of edges reach from the seeds. */
  lemma LeastIsReachable(s: set<string>, seeds: set<string>, edges: Edges)
    requires IsLeast(s, seeds, edges)
    ensures forall b :: b in s <==> Reachable(edges, seeds, b)
  {
    var reached := set b | b in s && Reachable(edges, seeds, b);
    forall a | a in seeds ensures a in reached {
      assert Leads(edges, a, a, 0);
    }
    forall e | e in edges && e.0 in reached ensures e.1 in reached {
      var a, n: nat :| a in seeds && Leads(edges, a, e.0, n);
      assert (e.0, e.1) in edges;
      assert Leads(edges, a, e.1, n + 1);
    }
    assert Closed(reached, edges) && s <= reached;
    forall b | Reachable(edges, seeds, b) ensures b in s {
      var a, n: nat :| a in seeds && Leads(edges, a, b, n);
      ClosedUnderChains(s, edges, a, b, n);
    }
  }
}
