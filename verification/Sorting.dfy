/** The library's stable ascending sort, as insertion from the left end. */
module Sorting {

  ghost predicate Ascending<T>(s: seq<T>, key: T -> int) {
    forall i, j :: 0 <= i < j < |s| ==> key(s[i]) <= key(s[j])
  }

  /** x goes after every element whose key is not larger. */
  function Insert<T>(s: seq<T>, x: T, key: T -> int): seq<T> {
    if s == [] || key(s[|s| - 1]) <= key(x) then s + [x]
    else Insert(s[..|s| - 1], x, key) + [s[|s| - 1]]
  }

  function SortBy<T>(s: seq<T>, key: T -> int): seq<T> {
    if s == [] then [] else Insert(SortBy(s[..|s| - 1], key), s[|s| - 1], key)
  }

  lemma {:induction false} InsertAdds<T>(s: seq<T>, x: T, key: T -> int)
    ensures multiset(Insert(s, x, key)) == multiset(s) + multiset{x}
  {
    if s != [] && key(s[|s| - 1]) > key(x) {
      InsertAdds(s[..|s| - 1], x, key);
      assert s == s[..|s| - 1] + [s[|s| - 1]];
    }
  }

  lemma {:induction false} InsertIsAscending<T>(s: seq<T>, x: T, key: T -> int)
    requires Ascending(s, key)
    ensures Ascending(Insert(s, x, key), key)
  {
    if s != [] && key(s[|s| - 1]) > key(x) {
      var rest, last := s[..|s| - 1], s[|s| - 1];
      InsertIsAscending(rest, x, key);
      InsertAdds(rest, x, key);
      var r := Insert(rest, x, key);
      forall i | 0 <= i < |r| ensures key(r[i]) <= key(last) {
        assert r[i] in multiset(r);
        assert r[i] == x || r[i] in multiset(rest);
        assert r[i] in multiset(rest) ==> r[i] in rest;
      }
    }
  }

  lemma {:induction false} SortIsAscending<T>(s: seq<T>, key: T -> int)
    ensures Ascending(SortBy(s, key), key)
    ensures multiset(SortBy(s, key)) == multiset(s)
  {
    if s != [] {
      var rest, last := s[..|s| - 1], s[|s| - 1];
      var sorted := SortBy(rest, key);
      SortIsAscending(rest, key);
      InsertIsAscending(sorted, last, key);
      InsertAdds(sorted, last, key);
      assert SortBy(s, key) == Insert(sorted, last, key);
      assert s == rest + [last];
    }
  }

  lemma {:induction false} SortFixes<T>(s: seq<T>, key: T -> int)
    requires Ascending(s, key)
    ensures SortBy(s, key) == s
  {
    if s != [] {
      SortFixes(s[..|s| - 1], key);
      assert s == s[..|s| - 1] + [s[|s| - 1]];
    }
  }

  lemma SameLength<T>(a: seq<T>, b: seq<T>)
    requires multiset(a) == multiset(b)
    ensures |a| == |b|
    ensures forall x :: x in a <==> x in b
  {
    assert |multiset(a)| == |a| && |multiset(b)| == |b|;
    forall x ensures x in a <==> x in b {
      assert x in multiset(a) <==> x in a;
      assert x in multiset(b) <==> x in b;
    }
  }

  function Count<T>(s: seq<T>, f: T -> bool): nat {
    if s == [] then 0 else Count(s[..|s| - 1], f) + if f(s[|s| - 1]) then 1 else 0
  }

  lemma {:induction false} CountJoin<T>(a: seq<T>, b: seq<T>, f: T -> bool)
    ensures Count(a + b, f) == Count(a, f) + Count(b, f)
  {
    if b == [] {
      assert a + b == a;
    } else {
      assert (a + b)[..|a + b| - 1] == a + b[..|b| - 1];
      CountJoin(a, b[..|b| - 1], f);
    }
  }

  lemma DropLast<T>(a: seq<T>)
    requires a != []
    ensures multiset(a[..|a| - 1]) == multiset(a) - multiset{a[|a| - 1]}
  {
    assert a == a[..|a| - 1] + [a[|a| - 1]];
  }

  /** A count does not depend on the order. */
  lemma {:induction false} CountPermuted<T>(a: seq<T>, b: seq<T>, f: T -> bool)
    requires multiset(a) == multiset(b)
    ensures Count(a, f) == Count(b, f)
  {
    SameLength(a, b);
    if a != [] {
      var x := a[|a| - 1];
      assert x in b;
      var i :| 0 <= i < |b| && b[i] == x;
      assert a == a[..|a| - 1] + [x];
      assert b == b[..i] + [x] + b[i + 1..];
      DropLast(a);
      var rest := b[..i] + b[i + 1..];
      assert multiset(b) - multiset{x} == multiset(rest);
      CountPermuted(a[..|a| - 1], b[..i] + b[i + 1..], f);
      CountJoin(b[..i] + [x], b[i + 1..], f);
      CountJoin(b[..i], [x], f);
      CountJoin(b[..i], b[i + 1..], f);
      assert Count([x], f) == if f(x) then 1 else 0 by { assert [x][..0] == []; }
    }
  }

  /** s.filter(f) */
  function Where<T>(s: seq<T>, f: T -> bool): seq<T> {
    if s == [] then [] else Where(s[..|s| - 1], f) + if f(s[|s| - 1]) then [s[|s| - 1]] else []
  }

  lemma WhereOne<T>(s: seq<T>, x: T, f: T -> bool)
    ensures Where(s + [x], f) == if f(x) then Where(s, f) + [x] else Where(s, f)
  {
    assert (s + [x])[..|s|] == s;
  }

  lemma {:induction false} WhereIn<T>(s: seq<T>, f: T -> bool)
    ensures forall e :: e in Where(s, f) ==> e in s
  {
    if s != [] {
      WhereIn(s[..|s| - 1], f);
    }
  }

  lemma {:induction false} WhereJoin<T>(a: seq<T>, b: seq<T>, f: T -> bool)
    ensures Where(a + b, f) == Where(a, f) + Where(b, f)
  {
    if b == [] {
      assert a + b == a;
    } else {
      assert (a + b)[..|a + b| - 1] == a + b[..|b| - 1];
      WhereJoin(a, b[..|b| - 1], f);
    }
  }

  lemma {:induction false} WhereAll<T>(s: seq<T>, f: T -> bool, all: bool)
    requires forall e :: e in s ==> f(e) == all
    ensures Where(s, f) == if all then s else []
  {
    if s != [] {
      WhereAll(s[..|s| - 1], f, all);
      assert s == s[..|s| - 1] + [s[|s| - 1]];
    }
  }

  lemma InsertBefore<T>(s: seq<T>, last: T, x: T, key: T -> int)
    requires key(last) > key(x)
    ensures Insert(s + [last], x, key) == Insert(s, x, key) + [last]
  {
    assert (s + [last])[..|s|] == s;
  }

  lemma WhereLast<T>(s: seq<T>, f: T -> bool)
    requires s != []
    ensures
      var rest, last := s[..|s| - 1], s[|s| - 1];
      Where(s, f) == if f(last) then Where(rest, f) + [last] else Where(rest, f)
  {
  }

  lemma {:induction false} WhereOfInsert<T>(s: seq<T>, x: T, key: T -> int, f: T -> bool)
    requires Ascending(s, key)
    ensures Where(Insert(s, x, key), f) == if f(x) then Insert(Where(s, f), x, key) else Where(s, f)
  {
    if s == [] || key(s[|s| - 1]) <= key(x) {
      WhereOne(s, x, f);
      WhereIn(s, f);
      LastOfWhere(s, x, key, f);
    } else {
      var rest, last := s[..|s| - 1], s[|s| - 1];
      WhereOfInsert(rest, x, key, f);
      WhereOne(Insert(rest, x, key), last, f);
      WhereLast(s, f);
      InsertBefore(Where(rest, f), last, x, key);
    }
  }

  lemma LastOfWhere<T>(s: seq<T>, x: T, key: T -> int, f: T -> bool)
    requires Ascending(s, key) && (s == [] || key(s[|s| - 1]) <= key(x))
    ensures Insert(Where(s, f), x, key) == Where(s, f) + [x]
  {
    WhereIn(s, f);
    var kept := Where(s, f);
    if kept != [] {
      assert kept[|kept| - 1] in s;
    }
  }

  /** A stable sort keeps the order of equal elements: sorting and filtering commute. */
  lemma {:induction false} WhereOfSort<T>(s: seq<T>, key: T -> int, f: T -> bool)
    ensures Where(SortBy(s, key), f) == SortBy(Where(s, f), key)
  {
    if s != [] {
      var rest, last := s[..|s| - 1], s[|s| - 1];
      WhereOfSort(rest, key, f);
      SortIsAscending(rest, key);
      WhereOfInsert(SortBy(rest, key), last, key, f);
      WhereLast(s, f);
      SortOne(Where(rest, f), last, key);
    }
  }

  lemma SortOne<T>(s: seq<T>, x: T, key: T -> int)
    ensures SortBy(s + [x], key) == Insert(SortBy(s, key), x, key)
  {
    assert (s + [x])[..|s|] == s;
  }

  function IdSet<T(==)>(s: seq<T>, id: T -> string): set<string> { set e | e in s :: id(e) }

  /** The first element of each id. */
  function Firsts<T(==)>(s: seq<T>, id: T -> string): seq<T> {
    if s == [] then []
    else
      var rest, last := Firsts(s[..|s| - 1], id), s[|s| - 1];
      if id(last) in IdSet(s[..|s| - 1], id) then rest else rest + [last]
  }

  ghost predicate Distinct<T>(s: seq<T>, id: T -> string) {
    forall i, j :: 0 <= i < j < |s| ==> id(s[i]) != id(s[j])
  }

  /** Of each id exactly one element is left. */
  lemma {:induction false} FirstsAreDistinct<T>(s: seq<T>, id: T -> string)
    ensures Distinct(Firsts(s, id), id) && IdSet(Firsts(s, id), id) == IdSet(s, id)
  {
    if s != [] {
      var rest, last := s[..|s| - 1], s[|s| - 1];
      FirstsAreDistinct(rest, id);
      assert s == rest + [last];
      var kept := Firsts(rest, id);
      forall i | 0 <= i < |kept| ensures id(kept[i]) in IdSet(rest, id) {
        assert id(kept[i]) in IdSet(kept, id);
      }
      assert IdSet(s, id) == IdSet(rest, id) + {id(last)};
      assert IdSet(kept + [last], id) == IdSet(kept, id) + {id(last)};
    }
  }

  /** In an ascending sequence it is an earliest one. */
  lemma {:induction false} FirstsAreEarliest<T>(s: seq<T>, id: T -> string, key: T -> int, a: T, b: T)
    requires Ascending(s, key) && a in Firsts(s, id) && b in s && id(a) == id(b)
    ensures a in s && key(a) <= key(b)
  {
    var rest, last := s[..|s| - 1], s[|s| - 1];
    FirstsAreDistinct(rest, id);
    assert s == rest + [last];
    assert b in rest ==> id(b) in IdSet(rest, id);
    if a in Firsts(rest, id) {
      if b in rest {
        FirstsAreEarliest(rest, id, key, a, b);
      } else {
        assert id(a) in IdSet(Firsts(rest, id), id);
        var c :| c in rest && id(c) == id(a);
        FirstsAreEarliest(rest, id, key, a, c);
      }
    }
  }

  lemma SuffixKeeps<T>(s: seq<T>, d: nat, key: T -> int, id: T -> string)
    requires d <= |s| && Ascending(s, key) && Distinct(s, id)
    ensures Ascending(s[d..], key) && Distinct(s[d..], id)
  {
    var r := s[d..];
    forall i, j | 0 <= i < j < |r| ensures key(r[i]) <= key(r[j]) && id(r[i]) != id(r[j]) {
      assert r[i] == s[d + i] && r[j] == s[d + j];
    }
  }

  lemma IdSetNext<T>(s: seq<T>, i: nat, id: T -> string)
    requires i < |s|
    ensures IdSet(s[..i + 1], id) == IdSet(s[..i], id) + {id(s[i])}
  {
    assert s[..i + 1] == s[..i] + [s[i]];
  }

  method DropRepeats<T(==)>(s: seq<T>, id: T -> string) returns (kept: seq<T>)
    ensures kept == Firsts(s, id)
  {
    var seen: set<string> := {};
    kept := [];
    for i := 0 to |s|
      invariant kept == Firsts(s[..i], id) && seen == IdSet(s[..i], id)
    {
      assert s[..i + 1][..i] == s[..i];
      IdSetNext(s, i, id);
      if id(s[i]) !in seen {
        seen := seen + {id(s[i])};
        kept := kept + [s[i]];
      }
    }
    assert s[..|s|] == s;
  }

  lemma {:induction false} FirstsAscend<T>(s: seq<T>, id: T -> string, key: T -> int)
    requires Ascending(s, key)
    ensures Ascending(Firsts(s, id), key) && forall e :: e in Firsts(s, id) ==> e in s
  {
    if s != [] {
      var rest, last := s[..|s| - 1], s[|s| - 1];
      assert s == rest + [last];
      FirstsAscend(rest, id, key);
      assert forall e :: e in rest ==> key(e) <= key(last);
    }
  }

  /** s.slice(-n), for a positive n. */
  function LastOf<T>(s: seq<T>, n: nat): seq<T> { if n >= |s| then s else s[|s| - n..] }

  /** Sorting, keeping the first of each id and cutting from the left: the result ascends and shows each id once. */
  lemma SortedOnce<T>(s: seq<T>, n: nat, key: T -> int, id: T -> string)
    ensures
      var all := Firsts(SortBy(s, key), id);
      var r := LastOf(all, n);
      && Ascending(r, key) && Distinct(r, id) && IdSet(all, id) == IdSet(s, id)
  {
    var sorted := SortBy(s, key);
    SortIsAscending(s, key);
    SameLength(sorted, s);
    FirstsAscend(sorted, id, key);
    FirstsAreDistinct(sorted, id);
    var all := Firsts(sorted, id);
    SuffixKeeps(all, if n >= |all| then 0 else |all| - n, key, id);
    assert all[0..] == all;
  }

  lemma AppendAscendsIff<T>(s: seq<T>, x: T, key: T -> int)
    requires Ascending(s, key)
    ensures Ascending(s + [x], key) <==> s == [] || key(s[|s| - 1]) <= key(x)
  {
    if s != [] {
      var v := s + [x];
      assert v[|s| - 1] == s[|s| - 1] && v[|s|] == x;
      if key(s[|s| - 1]) <= key(x) {
        forall i, j | 0 <= i < j < |v| ensures key(v[i]) <= key(v[j]) {
          assert key(s[i]) <= key(s[|s| - 1]);
        }
      }
    }
  }

  lemma SetAscendsIff<T>(s: seq<T>, i: nat, x: T, key: T -> int)
    requires Ascending(s, key) && i < |s|
    ensures Ascending(s[i := x], key) <==>
      (i > 0 ==> key(s[i - 1]) <= key(x)) && (i + 1 < |s| ==> key(x) <= key(s[i + 1]))
  {
    var v := s[i := x];
    if Ascending(v, key) {
      assert i > 0 ==> key(v[i - 1]) <= key(v[i]);
      assert i + 1 < |s| ==> key(v[i]) <= key(v[i + 1]);
    }
    if (i > 0 ==> key(s[i - 1]) <= key(x)) && (i + 1 < |s| ==> key(x) <= key(s[i + 1])) {
      forall a, b | 0 <= a < b < |v| ensures key(v[a]) <= key(v[b]) {
        assert key(s[a]) <= key(s[b]);
        assert a < i ==> key(s[a]) <= key(s[i - 1]);
        assert i < b ==> key(s[i + 1]) <= key(s[b]);
      }
    }
  }

  lemma TailAscends<T>(s: seq<T>, key: T -> int)
    requires Ascending(s, key) && s != []
    ensures Ascending(s[1..], key)
  {
    var r := s[1..];
    forall i, j | 0 <= i < j < |r| ensures key(r[i]) <= key(r[j]) {
      assert r[i] == s[i + 1] && r[j] == s[j + 1];
    }
  }

  /** Sorting two ascending sequences together interleaves them: a filter that tells them apart gives each one back. */
  lemma MergedFirst<T>(a: seq<T>, b: seq<T>, key: T -> int, f: T -> bool)
    requires Ascending(a, key) && (forall e :: e in a ==> f(e)) && forall e :: e in b ==> !f(e)
    ensures Where(SortBy(a + b, key), f) == a
  {
    WhereAll(a, f, true);
    WhereAll(b, f, false);
    WhereJoin(a, b, f);
    WhereOfSort(a + b, key, f);
    assert a + [] == a;
    SortFixes(a, key);
  }

  lemma MergedSecond<T>(a: seq<T>, b: seq<T>, key: T -> int, f: T -> bool)
    requires Ascending(b, key) && (forall e :: e in a ==> !f(e)) && forall e :: e in b ==> f(e)
    ensures Where(SortBy(a + b, key), f) == b
  {
    WhereAll(a, f, false);
    WhereAll(b, f, true);
    WhereJoin(a, b, f);
    WhereOfSort(a + b, key, f);
    assert [] + b == b;
    SortFixes(b, key);
  }

  lemma {:induction false} WhereHolds<T>(s: seq<T>, f: T -> bool)
    ensures forall x :: x in Where(s, f) <==> x in s && f(x)
  {
    if s != [] {
      assert s == s[..|s| - 1] + [s[|s| - 1]];
      WhereHolds(s[..|s| - 1], f);
    }
  }
}
