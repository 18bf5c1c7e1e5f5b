/** A directory tree below the project root, and a disk on which any step may fail. */
module FileTree {
  import opened Text

  /** Segments below the project root; [] is the root itself. `a <= p` says p lies in the subtree of a. */
  type Path = seq<string>

  datatype Node = Dir | File(text: string)

  type Tree = map<Path, Node>

  function At(t: Tree, p: Path): Option<Node> {
    if p in t then Some(t[p]) else None
  }

  function Parent(p: Path): Path
    requires p != []
  {
    p[..|p| - 1]
  }

  function Name(p: Path): string
    requires p != []
  {
    p[|p| - 1]
  }

  predicate IsDir(t: Tree, p: Path) { At(t, p) == Some(Dir) }

  predicate IsFile(t: Tree, p: Path) { p in t && t[p].File? }

  /** Every entry hangs off a directory, all the way to the root. */
  ghost predicate WellFormed(t: Tree) {
    IsDir(t, []) && forall p :: p in t && p != [] ==> IsDir(t, Parent(p))
  }

  /** Nothing exists below a path that does not exist. */
  lemma {:induction false} AncestorsExist(t: Tree, a: Path, p: Path)
    requires WellFormed(t) && a <= p && p in t
    ensures a in t
    ensures a != p ==> IsDir(t, a)
    decreases |p|
  {
    if a != p {
      assert a <= Parent(p);
      AncestorsExist(t, a, Parent(p));
    }
  }

  function ChildNames(t: Tree, p: Path): set<string> {
    set q | q in t && p <= q && |q| == |p| + 1 :: Name(q)
  }

  lemma ChildNamesAt(t: Tree, p: Path, n: string)
    ensures n in ChildNames(t, p) <==> p + [n] in t
  {
    if p + [n] in t {
      assert Name(p + [n]) == n;
    }
    if n in ChildNames(t, p) {
      var q :| q in t && p <= q && |q| == |p| + 1 && Name(q) == n;
      assert q == p + [n];
    }
  }

  /** p carried from the subtree of `from` to the subtree of `to`. */
  function Rebase(p: Path, from: Path, to: Path): Path
    requires from <= p
  {
    to + p[|from|..]
  }

  predicate Apart(a: Path, b: Path) { !(a <= b) && !(b <= a) }

  /** The tree after the whole subtree at `from` has become the subtree at `to`. */
  function Renamed(t: Tree, from: Path, to: Path): Tree {
    map p | p in (set q | q in t && from <= q :: Rebase(q, from, to))
              + (set q | q in t && !(from <= q) && !(to <= q))
      :: if to <= p && Rebase(p, to, from) in t then t[Rebase(p, to, from)] else if p in t then t[p] else Dir
  }

  lemma RenamedAt(t: Tree, from: Path, to: Path, p: Path)
    requires Apart(from, to)
    ensures At(Renamed(t, from, to), p)
         == if to <= p then At(t, Rebase(p, to, from)) else if from <= p then None else At(t, p)
  {
    var r := Renamed(t, from, to);
    if to <= p {
      var q := Rebase(p, to, from);
      assert from <= q && Rebase(q, from, to) == p;
      if p in r {
        var q' :| q' in t && from <= q' && Rebase(q', from, to) == p;
        assert q' == q;
      }
    } else if p in r {
      assert forall q :: from <= q ==> to <= Rebase(q, from, to);
    }
  }

  function Prefixes(p: Path): set<Path> {
    set i | 0 <= i <= |p| :: p[..i]
  }

  /** mkdir -p: every missing prefix of p becomes a directory. */
  function WithDirs(t: Tree, p: Path): Tree {
    map q | q in t.Keys + Prefixes(p) :: if q in t then t[q] else Dir
  }

  lemma WithDirsAt(t: Tree, p: Path, q: Path)
    ensures At(WithDirs(t, p), q) == if q <= p && q !in t then Some(Dir) else At(t, q)
  {
    if q <= p {
      assert q == p[..|q|];
    }
    assert q in Prefixes(p) <==> q <= p;
  }

  /** mkdir -p got as far as some prefix of p. */
  ghost predicate PartlyMade(t: Tree, r: Tree, p: Path) {
    r == t || exists k :: 0 <= k <= |p| && r == WithDirs(t, p[..k])
  }

  predicate NoFileOnTheWay(t: Tree, p: Path) {
    forall i :: 0 <= i <= |p| ==> !IsFile(t, p[..i])
  }

  /** rm -r, sparing the entries in kept. */
  function Without(t: Tree, top: Path, kept: set<Path>): Tree {
    map p | p in t && (!(top <= p) || p in kept) :: t[p]
  }

  /** What the environment does to one disk operation. A faulty operation stops part-way. */
  datatype Verdict = Smooth | Faulty(garbage: string, reach: nat, kept: set<Path>)

  predicate CanWrite(t: Tree, p: Path) {
    p != [] && !IsDir(t, p) && IsDir(t, Parent(p))
  }

  predicate CanRename(t: Tree, from: Path, to: Path) {
    && Apart(from, to)
    && from in t && to != [] && IsDir(t, Parent(to))
    && (to !in t || (IsFile(t, from) && IsFile(t, to)))
  }

  /** At most the file at p differs, and if so it is a file with some text. */
  predicate OneFileWritten(t: Tree, r: Tree, p: Path) {
    r == t || (CanWrite(t, p) && IsFile(r, p) && r == t[p := r[p]])
  }

  /** The disk. Operation number `clock` meets the verdict script(clock). */
  class Disk {
    var tree: Tree
    var clock: nat
    /** The renames that have happened. */
    ghost var renamed: multiset<(Path, Path)>
    const script: nat -> Verdict

    constructor (tree: Tree, script: nat -> Verdict)
      ensures this.tree == tree && this.script == script && clock == 0 && renamed == multiset{}
    {
      this.tree := tree;
      this.script := script;
      clock := 0;
      renamed := multiset{};
    }

    /** Some operation in [since, clock) was faulty. */
    ghost predicate FaultSince(since: nat)
      reads this
    {
      exists c :: since <= c < clock && script(c).Faulty?
    }

    method Tick() returns (v: Verdict)
      modifies this`clock
      ensures clock == old(clock) + 1 && v == script(old(clock))
      ensures v.Faulty? ==> FaultSince(old(clock))
    {
      v := script(clock);
      clock := clock + 1;
    }

    method ReadDir(p: Path) returns (r: Option<seq<string>>)
      modifies this`clock
      ensures clock == old(clock) + 1
      ensures r.Some? ==> IsDir(tree, p)
      ensures r.None? && IsDir(tree, p) ==> FaultSince(old(clock))
      ensures r.Some? ==> NoRepeat(r.value) && forall n :: n in r.value <==> p + [n] in tree
    {
      var v := Tick();
      if v.Faulty? || !IsDir(tree, p) {
        return None;
      }
      var names := [];
      var left := ChildNames(tree, p);
      forall n ensures n in left <==> p + [n] in tree { ChildNamesAt(tree, p, n); }
      ghost var all := left;
      while left != {}
        invariant NoRepeat(names) && forall n :: n in all <==> n in left || n in names
        invariant forall n :: n in left ==> n !in names
      {
        var n :| n in left;
        names := names + [n];
        left := left - {n};
      }
      r := Some(names);
    }

    method ReadFile(p: Path) returns (r: Option<string>)
      modifies this`clock
      ensures clock == old(clock) + 1
      ensures r.Some? ==> IsFile(tree, p) && r.value == tree[p].text
      ensures r.None? && IsFile(tree, p) ==> FaultSince(old(clock))
    {
      var v := Tick();
      r := if v.Faulty? || !IsFile(tree, p) then None else Some(tree[p].text);
    }

    /** A faulty write leaves arbitrary text behind. */
    method WriteFile(p: Path, text: string) returns (ok: bool)
      modifies this`tree, this`clock
      ensures clock == old(clock) + 1
      ensures ok ==> CanWrite(old(tree), p) && tree == old(tree)[p := File(text)]
      ensures OneFileWritten(old(tree), tree, p)
      ensures !ok && CanWrite(old(tree), p) ==> FaultSince(old(clock))
    {
      var v := Tick();
      ok := CanWrite(tree, p) && v.Smooth?;
      if ok {
        tree := tree[p := File(text)];
      } else if CanWrite(tree, p) && v.Faulty? {
        tree := tree[p := File(v.garbage)];
      }
    }

    /** A faulty copy leaves arbitrary text at the destination. */
    method CopyFile(source: Path, p: Path) returns (ok: bool)
      modifies this`tree, this`clock
      ensures clock == old(clock) + 1
      ensures ok ==> IsFile(old(tree), source) && CanWrite(old(tree), p)
      ensures ok ==> tree == old(tree)[p := old(tree)[source]]
      ensures OneFileWritten(old(tree), tree, p)
      ensures !ok && IsFile(old(tree), source) && CanWrite(old(tree), p) ==> FaultSince(old(clock))
    {
      var v := Tick();
      ok := IsFile(tree, source) && CanWrite(tree, p) && v.Smooth?;
      if ok {
        tree := tree[p := tree[source]];
      } else if IsFile(tree, source) && CanWrite(tree, p) && v.Faulty? {
        tree := tree[p := File(v.garbage)];
      }
    }

    /** A rename happens or does not. */
    method Rename(from: Path, to: Path) returns (ok: bool)
      modifies this
      ensures clock == old(clock) + 1
      ensures ok ==> CanRename(old(tree), from, to) && tree == Renamed(old(tree), from, to)
      ensures !ok ==> tree == old(tree)
      ensures renamed == old(renamed) + if ok then multiset{(from, to)} else multiset{}
      ensures !ok && CanRename(old(tree), from, to) ==> FaultSince(old(clock))
    {
      var v := Tick();
      ok := CanRename(tree, from, to) && v.Smooth?;
      if ok {
        tree := Renamed(tree, from, to);
        renamed := renamed + multiset{(from, to)};
      }
    }

    /** A faulty mkdir -p may have made some of the directories. */
    method MakeDirs(p: Path) returns (ok: bool)
      modifies this`tree, this`clock
      ensures clock == old(clock) + 1
      ensures ok ==> NoFileOnTheWay(old(tree), p) && tree == WithDirs(old(tree), p)
      ensures PartlyMade(old(tree), tree, p)
      ensures !ok && NoFileOnTheWay(old(tree), p) ==> FaultSince(old(clock))
    {
      var v := Tick();
      ok := NoFileOnTheWay(tree, p) && v.Smooth?;
      if ok {
        assert p[..|p|] == p;
        tree := WithDirs(tree, p);
      } else if v.Faulty? && v.reach <= |p| && NoFileOnTheWay(tree, p) {
        tree := WithDirs(tree, p[..v.reach]);
      }
    }

    /** rmSync(p, {recursive, force}): a missing p is fine; a faulty removal spares any part of the subtree. */
    method Remove(p: Path) returns (ok: bool)
      modifies this`tree, this`clock
      ensures clock == old(clock) + 1
      ensures ok ==> tree == Without(old(tree), p, {})
      ensures !ok ==> exists kept :: tree == Without(old(tree), p, kept)
      ensures !ok ==> FaultSince(old(clock))
    {
      var v := Tick();
      ok := v.Smooth?;
      tree := Without(tree, p, if ok then {} else v.kept);
    }
  }
}
