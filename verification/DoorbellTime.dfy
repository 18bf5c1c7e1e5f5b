/** When the answers of the doorbell buffer are in reverse chronological order. */
module DoorbellTime {
  import opened Text
  import opened Sorting
  import opened Doorbell

  function Ts(e: Row): int { e.ts }

  /** Latest first. */
  ghost predicate Chronological(answer: seq<Row>) {
    forall i, j :: 0 <= i < j < |answer| ==> answer[i].ts >= answer[j].ts
  }

  // ----- queries

  lemma {:induction false} KeptAscends(rows: seq<Row>, q: Query)
    requires Ascending(rows, Ts)
    ensures Ascending(Keep(rows, q), Ts) && forall e :: e in Keep(rows, q) ==> e in rows
  {
    if rows != [] {
      var rest, last := rows[..|rows| - 1], rows[|rows| - 1];
      assert rows == rest + [last];
      KeptAscends(rest, q);
      forall e | e in Keep(rest, q) ensures Ts(e) <= Ts(last) {
        var i :| 0 <= i < |rest| && rest[i] == e;
        assert rows[i] == e && rows[|rows| - 1] == last;
      }
    }
  }

  lemma ReversedIff(s: seq<Row>)
    ensures Chronological(Reverse(s)) <==> Ascending(s, Ts)
  {
    var r := Reverse(s);
    forall i | 0 <= i < |s| ensures r[i] == s[|s| - 1 - i] { ReverseAt(s, i); }
    if Chronological(r) {
      forall i, j | 0 <= i < j < |s| ensures Ts(s[i]) <= Ts(s[j]) {
        assert r[|s| - 1 - j] == s[j] && r[|s| - 1 - i] == s[i];
      }
    } else {
      var i, j :| 0 <= i < j < |r| && r[i].ts < r[j].ts;
      assert Ts(s[|s| - 1 - j]) > Ts(s[|s| - 1 - i]);
    }
  }

  lemma SliceAscends(s: seq<Row>, n: int)
    requires Ascending(s, Ts)
    ensures Ascending(SliceFromEnd(s, n), Ts)
  {
    var t := SliceFromEnd(s, n);
    var d := |s| - |t|;
    forall i, j | 0 <= i < j < |t| ensures Ts(t[i]) <= Ts(t[j]) {
      assert t[i] == s[d + i] && t[j] == s[d + j];
    }
  }

  /** The query for everything: no filter, limit 0. */
  function Everything(): Query { Query([], "", "", "", "", None, Some(0)) }

  lemma {:induction false} KeepsEverything(rows: seq<Row>)
    ensures Keep(rows, Everything()) == rows
  {
    if rows != [] {
      KeepsEverything(rows[..|rows| - 1]);
    }
  }

  lemma EverythingTells(rows: seq<Row>)
    ensures Chronological(Ask(rows, Everything()).events) <==> Ascending(rows, Ts)
  {
    KeepsEverything(rows);
    ReversedIff(rows);
    assert Ask(rows, Everything()).events == Reverse(rows);
  }

  /** Every query is answered in reverse chronological order if and only if the buffer ascends in time. */
  lemma EveryAnswerChronologicalIff(rows: seq<Row>)
    ensures (forall q :: Chronological(Ask(rows, q).events)) <==> Ascending(rows, Ts)
  {
    if Ascending(rows, Ts) {
      forall q ensures Chronological(Ask(rows, q).events) {
        KeptAscends(rows, q);
        SliceAscends(Keep(rows, q), Limit(q));
        ReversedIff(SliceFromEnd(Keep(rows, q), Limit(q)));
      }
    } else {
      EverythingTells(rows);
    }
  }

  // ----- one event

  /** The event's time fits where its row ends up. */
  predicate InPlace(w: seq<Row>, max: nat, e: Row) {
    var i := MatchFor(w, e);
    if i < 0 then max <= 1 || w == [] || w[|w| - 1].ts <= e.ts
    else TakesOver(w[i], e) ==> (i > 0 ==> w[i - 1].ts <= e.ts) && (i + 1 < |w| ==> e.ts <= w[i + 1].ts)
  }

  lemma AddAscendsIff(log: seq<Row>, max: nat, r: Row)
    requires Ascending(Window(log, max), Ts)
    ensures
      var w := Window(log, max);
      Ascending(Window(log + [r], max), Ts) <==> max <= 1 || w == [] || w[|w| - 1].ts <= r.ts
  {
    var w := Window(log, max);
    WindowAppend(log, max, r);
    if |w| < max {
      AppendAscendsIff(w, r, Ts);
    } else if w != [] {
      assert (w + [r])[1..] == w[1..] + [r];
      TailAscends(w, Ts);
      AppendAscendsIff(w[1..], r, Ts);
    }
  }

  lemma UpdateAscendsIff(log: seq<Row>, max: nat, i: nat, e: Row)
    requires Ascending(Window(log, max), Ts) && i < |Window(log, max)|
    ensures
      var w := Window(log, max);
      Ascending(Window(log[|log| - |w| + i := Merged(w[i], e)], max), Ts) <==>
        (TakesOver(w[i], e) ==> (i > 0 ==> w[i - 1].ts <= e.ts) && (i + 1 < |w| ==> e.ts <= w[i + 1].ts))
  {
    var w := Window(log, max);
    var m := Merged(w[i], e);
    WindowUpdate(log, max, i, m);
    SetAscendsIff(w, i, m, Ts);
    assert m.ts == if TakesOver(w[i], e) then e.ts else w[i].ts;
    assert i > 0 ==> Ts(w[i - 1]) <= Ts(w[i]);
    assert i + 1 < |w| ==> Ts(w[i]) <= Ts(w[i + 1]);
  }

  /** An event keeps an ascending buffer ascending exactly when its time fits where its row ends up: a root that
      takes over a slot brings a new time to an old place, and a row read from disk an old time to the end. */
  lemma OrderKeptIff(log: seq<Row>, max: nat, e: Row)
    requires Ascending(Window(log, max), Ts)
    ensures Ascending(Window(After(log, max, e), max), Ts) <==> InPlace(Window(log, max), max, e)
  {
    var w := Window(log, max);
    var i := MatchFor(w, e);
    if i >= 0 {
      UpdateAscendsIff(log, max, i, e);
      assert After(log, max, e) == log[|log| - |w| + i := Merged(w[i], e)];
    } else {
      AddAscendsIff(log, max, e);
      assert After(log, max, e) == log + [e];
    }
  }

  // ----- histories

  /** Events arrive in the order of their times. */
  ghost predicate InOrder(events: seq<Row>) { Ascending(events, Ts) }

  /** The slot an event goes to, if it goes to one that is there already. */
  function SlotFor(log: seq<Row>, max: nat, e: Row): Option<nat> {
    var w := Window(log, max);
    if MatchFor(w, e) >= 0 then Some(|log| - |w| + MatchFor(w, e)) else None
  }

  /** Event n is a root that takes over slot i. */
  ghost predicate Overtakes(max: nat, events: seq<Row>, n: nat, i: nat) {
    n < |events|
    && var log := Replay(max, events[..n]);
       i < |log| && SlotFor(log, max, events[n]) == Some(i) && TakesOver(log[i], events[n])
  }

  /** Some root took over a buffered slot and an earlier row is still behind it. */
  ghost predicate StillOvertaken(max: nat, events: seq<Row>) {
    exists n: nat, i: nat, j: nat ::
      Overtakes(max, events, n, i) && Behind(Replay(max, events), max, i, j) && Replay(max, events)[j].ts < events[n].ts
  }

  predicate Behind(log: seq<Row>, max: nat, i: nat, j: nat) { |log| - |Window(log, max)| <= i < j < |log| }

  /** The event that opened each slot. */
  function Openers(max: nat, events: seq<Row>): seq<Row> {
    if events == [] then []
    else
      var rest, e := events[..|events| - 1], events[|events| - 1];
      if SlotFor(Replay(max, rest), max, e) == None then Openers(max, rest) + [e] else Openers(max, rest)
  }

  /** Where a row's time comes from: the event that opened its slot, or a root that took the slot over. */
  ghost predicate Timed(max: nat, events: seq<Row>, k: nat)
    requires k < |Replay(max, events)| && k < |Openers(max, events)|
  {
    var ts := Replay(max, events)[k].ts;
    && Openers(max, events)[k].ts <= ts
    && (ts == Openers(max, events)[k].ts || exists n: nat :: Overtakes(max, events, n, k) && events[n].ts == ts)
  }

  lemma OvertakesLater(max: nat, events: seq<Row>, n: nat, i: nat)
    requires events != [] && Overtakes(max, events[..|events| - 1], n, i)
    ensures Overtakes(max, events, n, i)
  {
    assert events[..|events| - 1][..n] == events[..n];
  }

  lemma OpenersGrow(max: nat, events: seq<Row>)
    requires events != []
    ensures Openers(max, events[..|events| - 1]) <= Openers(max, events)
  {
  }

  lemma TimedLater(max: nat, events: seq<Row>, k: nat)
    requires events != [] && k < |Replay(max, events[..|events| - 1])| == |Openers(max, events[..|events| - 1])|
    requires k < |Replay(max, events)| && k < |Openers(max, events)|
    requires Replay(max, events)[k].ts == Replay(max, events[..|events| - 1])[k].ts
    requires Timed(max, events[..|events| - 1], k)
    ensures Timed(max, events, k)
  {
    var rest := events[..|events| - 1];
    OpenersGrow(max, events);
    var ts := Replay(max, rest)[k].ts;
    if ts != Openers(max, rest)[k].ts {
      var n: nat :| Overtakes(max, rest, n, k) && rest[n].ts == ts;
      OvertakesLater(max, events, n, k);
      assert events[n].ts == ts;
    }
  }

  ghost predicate AllTimed(max: nat, events: seq<Row>) {
    && |Openers(max, events)| == |Replay(max, events)|
    && (forall k :: 0 <= k < |Replay(max, events)| ==> Timed(max, events, k))
    && Ascending(Openers(max, events), Ts)
    && (forall e :: e in Openers(max, events) ==> e in events)
  }

  lemma {:induction false} HistoryTimed(max: nat, events: seq<Row>)
    requires InOrder(events)
    ensures AllTimed(max, events)
  {
    if events != [] {
      var m := |events| - 1;
      var rest, e := events[..m], events[m];
      assert events == rest + [e];
      HistoryTimed(max, rest);
      OpenersStep(max, events);
      forall k | 0 <= k < |Replay(max, events)| ensures Timed(max, events, k) {
        SlotTimed(max, events, k);
      }
    }
  }

  lemma OpenersStep(max: nat, events: seq<Row>)
    requires events != [] && InOrder(events) && AllTimed(max, events[..|events| - 1])
    ensures |Openers(max, events)| == |Replay(max, events)| && Ascending(Openers(max, events), Ts)
    ensures forall f :: f in Openers(max, events) ==> f in events
  {
    var rest, e := events[..|events| - 1], events[|events| - 1];
    forall f | f in Openers(max, rest) ensures f in events && Ts(f) <= Ts(e) {
      var i :| 0 <= i < |rest| && rest[i] == f;
      assert events[i] == f && Ts(events[i]) <= Ts(events[|events| - 1]);
    }
  }

  lemma SlotTimed(max: nat, events: seq<Row>, k: nat)
    requires events != [] && InOrder(events) && AllTimed(max, events[..|events| - 1])
    requires k < |Replay(max, events)| == |Openers(max, events)|
    ensures Timed(max, events, k)
  {
    var m := |events| - 1;
    var log := Replay(max, events[..m]);
    if SlotFor(log, max, events[m]) == Some(k) && TakesOver(log[k], events[m]) {
      NewlyTimed(max, events, k);
    } else if k < |log| {
      SameTime(log, max, events[m], k);
      assert Timed(max, events[..m], k);
      TimedLater(max, events, k);
    }
  }

  lemma NewlyTimed(max: nat, events: seq<Row>, k: nat)
    requires events != [] && InOrder(events) && AllTimed(max, events[..|events| - 1])
    requires k < |Replay(max, events)| == |Openers(max, events)|
    requires Overtakes(max, events, |events| - 1, k)
    ensures Timed(max, events, k)
  {
    var m := |events| - 1;
    TakeoverTime(Replay(max, events[..m]), max, events[m], k);
    OpenedEarlier(max, events, k);
  }

  lemma TakeoverTime(log: seq<Row>, max: nat, e: Row, k: nat)
    requires k < |log| && SlotFor(log, max, e) == Some(k) && TakesOver(log[k], e)
    ensures After(log, max, e)[k].ts == e.ts && After(log, max, e)[k].payload.isRoot
  {
  }

  lemma OpenedEarlier(max: nat, events: seq<Row>, k: nat)
    requires events != [] && InOrder(events) && AllTimed(max, events[..|events| - 1])
    requires k < |Replay(max, events[..|events| - 1])| && k < |Openers(max, events)|
    ensures Openers(max, events)[k].ts <= events[|events| - 1].ts
  {
    var m := |events| - 1;
    var o := Openers(max, events[..m])[k];
    assert o in events[..m];
    var i :| 0 <= i < m && events[..m][i] == o;
    assert Ts(events[i]) <= Ts(events[m]);
  }

  lemma SameTime(log: seq<Row>, max: nat, e: Row, k: nat)
    requires k < |log| && !(SlotFor(log, max, e) == Some(k) && TakesOver(log[k], e))
    ensures After(log, max, e)[k].ts == log[k].ts
  {
    var w := Window(log, max);
    var i := MatchFor(w, e);
    if i >= 0 && k == |log| - |w| + i {
      assert w[i] == log[k] && Merged(w[i], e).ts == w[i].ts;
      assert After(log, max, e)[k] == Merged(w[i], e);
    }
  }

  /** A slot taken over shows the time of the root from then on. */
  lemma OvertakenShows(max: nat, events: seq<Row>, n: nat, i: nat)
    requires Overtakes(max, events, n, i)
    ensures i < |Replay(max, events)| && Replay(max, events)[i].ts == events[n].ts
  {
    var log := Replay(max, events[..n]);
    assert events[..n + 1][..n] == events[..n];
    assert Replay(max, events[..n + 1]) == After(log, max, events[n]);
    TakeoverTime(log, max, events[n], i);
    RootStays(max, events, n + 1, i);
    assert SameIncident(Replay(max, events[..n + 1])[i], Replay(max, events)[i]);
  }

  /** For events that arrive in the order of their times: every query is answered in reverse chronological order
      if and only if no root took over a slot that is still buffered with an earlier row behind it. */
  lemma HistoryChronologicalIff(max: nat, events: seq<Row>)
    requires InOrder(events)
    ensures (forall q :: Chronological(Ask(Window(Replay(max, events), max), q).events)) <==>
      !StillOvertaken(max, events)
  {
    EveryAnswerChronologicalIff(Window(Replay(max, events), max));
    AscendsIff(max, events);
  }

  lemma InversionShows(log: seq<Row>, max: nat, i: nat, j: nat)
    requires Behind(log, max, i, j) && log[i].ts > log[j].ts
    ensures !Ascending(Window(log, max), Ts)
  {
    var w, d := Window(log, max), |log| - |Window(log, max)|;
    assert w[i - d] == log[i] && w[j - d] == log[j];
    assert Ts(w[i - d]) > Ts(w[j - d]);
  }

  lemma NoInversion(log: seq<Row>, max: nat)
    requires forall i: nat, j: nat :: Behind(log, max, i, j) ==> log[i].ts <= log[j].ts
    ensures Ascending(Window(log, max), Ts)
  {
    var w, d := Window(log, max), |log| - |Window(log, max)|;
    forall a, b | 0 <= a < b < |w| ensures Ts(w[a]) <= Ts(w[b]) {
      assert Behind(log, max, d + a, d + b);
    }
  }

  lemma AscendsIff(max: nat, events: seq<Row>)
    requires InOrder(events)
    ensures Ascending(Window(Replay(max, events), max), Ts) <==> !StillOvertaken(max, events)
  {
    if StillOvertaken(max, events) {
      OvertakenDescends(max, events);
    } else {
      HistoryTimed(max, events);
      var log := Replay(max, events);
      forall i: nat, j: nat | Behind(log, max, i, j) ensures log[i].ts <= log[j].ts {
        InversionIsOvertaken(max, events, i, j);
      }
      NoInversion(log, max);
    }
  }

  lemma OvertakenDescends(max: nat, events: seq<Row>)
    requires StillOvertaken(max, events)
    ensures !Ascending(Window(Replay(max, events), max), Ts)
  {
    var log := Replay(max, events);
    var n: nat, i: nat, j: nat :| Overtakes(max, events, n, i) && Behind(log, max, i, j) && log[j].ts < events[n].ts;
    OvertakenShows(max, events, n, i);
    InversionShows(log, max, i, j);
  }

  lemma InversionIsOvertaken(max: nat, events: seq<Row>, i: nat, j: nat)
    requires AllTimed(max, events) && Behind(Replay(max, events), max, i, j) && !StillOvertaken(max, events)
    ensures Replay(max, events)[i].ts <= Replay(max, events)[j].ts
  {
    var log := Replay(max, events);
    assert Timed(max, events, i) && Timed(max, events, j);
    if log[i].ts == Openers(max, events)[i].ts {
      assert Ts(Openers(max, events)[i]) <= Ts(Openers(max, events)[j]);
    } else {
      var n: nat :| Overtakes(max, events, n, i) && events[n].ts == log[i].ts;
    }
  }

  // ----- the smallest case

  function Report(id: string, ts: int, kind: string, isRoot: bool): Row {
    Row(id, ts, "", kind, None,
        Payload(Some("f"), Ids(None, None), Ids(None, None), None, id, isRoot, [], None, None, None, ""))
  }

  /** A derived failure, a status and then the root: the latest row stands in front of the second. */
  lemma RootInFront() returns (events: seq<Row>)
    ensures |events| == 3 && InOrder(events) && StillOvertaken(1000, events)
    ensures !Chronological(Ask(Window(Replay(1000, events), 1000), Everything()).events)
  {
    var a, b := Report("a", 1, "codeflowmu.failure", false), Report("b", 2, "sdk.status", false);
    var c := Report("c", 3, "codeflowmu.failure", true);
    events := [a, b, c];
    TwoThenRoot(a, b, c);
    assert events[..2] == [a, b];
    RootOvertakes(events, a, b, c);
    OvertakenDescends(1000, events);
    EverythingTells(Window(Replay(1000, events), 1000));
  }

  lemma RootOvertakes(events: seq<Row>, a: Row, b: Row, c: Row)
    requires events == [a, b, c] && !a.payload.isRoot && c.payload.isRoot && b.ts < c.ts
    requires Replay(1000, events[..2]) == [a, b] && SlotFor([a, b], 1000, c) == Some(0)
    requires Replay(1000, events) == [Merged(a, c), b]
    ensures StillOvertaken(1000, events) && (a.ts <= b.ts ==> InOrder(events))
  {
    assert Overtakes(1000, events, 2, 0);
    assert Behind(Replay(1000, events), 1000, 0, 1);
  }

  lemma TwoThenRoot(a: Row, b: Row, c: Row)
    requires a == Report("a", 1, "codeflowmu.failure", false) && b == Report("b", 2, "sdk.status", false)
    requires c == Report("c", 3, "codeflowmu.failure", true)
    ensures Replay(1000, [a, b]) == [a, b] && SlotFor([a, b], 1000, c) == Some(0)
    ensures Replay(1000, [a, b, c]) == [Merged(a, c), b]
  {
    OneKey(a, c);
    assert [a, b, c][..2] == [a, b] && [a, b][..1] == [a] && [a][..0] == [];
    assert LastMatch([a, b], StoredKey(a).value) == LastMatch([a], StoredKey(a).value) == 0;
    assert Replay(1000, [a]) == [a];
  }

  lemma OneKey(a: Row, c: Row)
    requires a.payload.rootFault == c.payload.rootFault == Some("f") && a.session == None
    ensures StoredKey(a).Some? && StoredKey(a) == ArrivalKey(c.payload)
  {
    TrimmedIff("f");
  }
}
