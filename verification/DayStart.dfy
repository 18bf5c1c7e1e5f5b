/** The binary search for the start of the local day. Instants are integers; key gives the rank of an instant's
    local date. */
module DayStart {

  const SPAN: int := 36 * 3600 * 1000

  ghost predicate Monotone(key: int -> int) {
    forall s, t :: s <= t ==> key(s) <= key(t)
  }

  /** f is the first instant of now's date. */
  ghost predicate FirstOfDay(key: int -> int, now: int, f: int) {
    f <= now && key(f) == key(now) && key(f - 1) < key(now)
  }

  /** Where the search ends when it runs between lo and hi. */
  function Search(key: int -> int, today: int, lo: int, hi: int): int
    decreases hi - lo
  {
    if hi - lo <= 1 then hi
    else
      var mid := (lo + hi) / 2;
      if key(mid) < today then Search(key, today, mid + 1, hi) else Search(key, today, lo, mid)
  }

  /** A day shorter than the span begins inside it. */
  lemma FirstExists(key: int -> int, now: int, lo: int) returns (f: int)
    requires Monotone(key) && lo <= now && key(lo) < key(now)
    ensures FirstOfDay(key, now, f) && lo < f
    decreases now - lo
  {
    f := now;
    while key(f - 1) == key(now)
      invariant lo < f <= now && key(f) == key(now)
      decreases f - lo
    {
      f := f - 1;
    }
    assert key(f - 1) <= key(f);
  }

  /** rangeStart("today", now, zone): never before the day's first instant and at most one millisecond after it. */
  method TodayStart(key: int -> int, now: int) returns (start: int)
    requires Monotone(key) && key(now - SPAN) < key(now)
    ensures start == Search(key, key(now), now - SPAN, now)
    ensures exists f :: FirstOfDay(key, now, f)
    ensures forall f :: FirstOfDay(key, now, f) ==> f <= start <= f + 1
    ensures key(start) == key(now) && start <= now
  {
    var today := key(now);
    var lo, hi := now - SPAN, now;
    ghost var f := FirstExists(key, now, now - SPAN);
    while hi - lo > 1
      invariant lo <= f <= hi <= now
      invariant Search(key, today, lo, hi) == Search(key, today, now - SPAN, now)
    {
      var mid := (lo + hi) / 2;
      if key(mid) < today {
        lo := mid + 1;
      } else {
        hi := mid;
      }
    }
    start := hi;
    OneFirst(key, now, f);
  }

  lemma OneFirst(key: int -> int, now: int, f: int)
    requires Monotone(key) && FirstOfDay(key, now, f)
    ensures forall g :: FirstOfDay(key, now, g) ==> g == f
    ensures forall t :: f <= t <= now ==> key(t) == key(now)
    ensures forall t :: t < f ==> key(t) < key(now)
  {
    forall g | FirstOfDay(key, now, g) ensures g == f {
      assert g < f ==> key(g) <= key(f - 1);
      assert f < g ==> key(f) <= key(g - 1);
    }
    forall t | t < f ensures key(t) < key(now) {
      assert key(t) <= key(f - 1);
    }
  }

  /** The width left after every halving that lands before an instant two milliseconds ago. */
  function Shrunk(w: nat): nat {
    if (w + 1) / 2 > 2 then Shrunk((w + 1) / 2 - 1) else w
  }

  lemma {:induction false} SearchShrinks(key: int -> int, now: int, w: nat)
    requires forall t :: key(t) == if t < now - 2 then 0 else 1
    ensures Search(key, 1, now - w, now) == Search(key, 1, now - Shrunk(w), now)
    decreases w
  {
    if (w + 1) / 2 > 2 {
      assert (now - w + now) / 2 == now - (w + 1) / 2;
      SearchShrinks(key, now, (w + 1) / 2 - 1);
    }
  }

  lemma ShrunkSpan()
    ensures Shrunk(129600000) == 2
  {
    assert Shrunk(493) == 2;
    assert Shrunk(31639) == Shrunk(493);
    assert Shrunk(2024999) == Shrunk(31639);
    assert Shrunk(129600000) == Shrunk(2024999);
  }

  lemma SearchTwo(key: int -> int, now: int)
    requires key(now - 1) >= 1
    ensures Search(key, 1, now - 2, now) == now - 1
  {
    assert (now - 2 + now) / 2 == now - 1;
  }

  /** The bound is met: on a day that began two milliseconds ago the search stops one millisecond late. */
  lemma OneLate(key: int -> int, now: int)
    requires forall t :: key(t) == if t < now - 2 then 0 else 1
    ensures FirstOfDay(key, now, now - 2) && Search(key, key(now), now - SPAN, now) == now - 1
  {
    ShrunkSpan();
    SearchShrinks(key, now, 129600000);
    SearchTwo(key, now);
    assert SPAN == 129600000;
  }
}
