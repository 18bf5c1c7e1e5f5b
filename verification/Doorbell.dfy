/** The doorbell buffer: a bounded list of events in which failures of one incident share a slot. */
module Doorbell {
  import opened Text
  import opened Lifecycle
  import opened Sorting

  const BUFFERED := {
    "sdk.tool_call", "sdk.thinking", "sdk.status", "sdk.result", "codeflowmu.failure",
    "runtime.session_started", "runtime.session_ended", "runtime.session_completed", "runtime.session_cancelled",
    "wake_agent.requested", "wake_agent.accepted", "wake_agent.failed", "wake_agent.skipped", "wake_agent.delayed",
    "transient_sdk_error", "transient_sdk_retry", "codeflowmu.failure_recorded", "codeflowmu.task_dispatched",
    "codeflowmu.report_detected", "codeflowmu.lifecycle.inbox_to_active", "codeflowmu.lifecycle.task_to_review",
    "codeflowmu.lifecycle.root_review_blocked", "codeflowmu.lifecycle.pending_pm_review",
    "codeflowmu.lifecycle.review_to_done", "codeflowmu.lifecycle.done_to_archive",
    "codeflowmu.lifecycle.review_to_active", "codeflowmu.lifecycle.done_to_active",
    "codeflowmu.report_gate.missing_report", "codeflowmu.report_gate.waiting_report"
  }

  predicate IsFailureKind(kind: string) { kind == "codeflowmu.failure" || kind == "codeflowmu.failure_recorded" }

  // ----- rows

  /** A failure folded into another row. */
  datatype Derived = Derived(fault: string, kind: string, at: string)

  /** The two spellings of a session id, where they hold a string. */
  datatype Ids = Ids(snake: Option<string>, camel: Option<string>)

  /** What the buffer reads of a payload. A field is None where the payload holds no string. */
  datatype Payload = Payload(
    rootFault: Option<string>, flat: Ids, nested: Ids, failureType: Option<string>,
    fault: string, isRoot: bool, derived: seq<Derived>, occurrences: Option<int>, agent: Option<string>,
    task: Option<string>, rest: string)

  datatype Row = Row(id: string, ts: int, at: string, kind: string, session: Option<string>, payload: Payload)

  datatype Stamp = Stamp(ts: int, at: string)

  // ----- session ids and dedupe keys

  predicate HasText(s: Option<string>) { s.Some? && Trim(s.value) != "" }

  /** pickStr: the first field with text in it, trimmed. */
  function Pick(ids: Ids): Option<string> {
    if HasText(ids.snake) then Some(Trim(ids.snake.value))
    else if HasText(ids.camel) then Some(Trim(ids.camel.value))
    else None
  }

  /** The first field that is not the empty string, as it is. */
  function FirstRaw(ids: Ids): Option<string> {
    if ids.snake.Some? && ids.snake.value != "" then ids.snake
    else if ids.camel.Some? && ids.camel.value != "" then ids.camel
    else None
  }

  /** The session id _extract stores beside the payload. */
  function Session(p: Payload): Option<string> {
    if Pick(p.flat).Some? then Pick(p.flat) else Pick(p.nested)
  }

  function RootFault(p: Payload): string { if p.rootFault.Some? then Trim(p.rootFault.value) else "" }

  function FailureName(p: Payload): string {
    if p.failureType.Some? && p.failureType.value != "" then p.failureType.value else "failure"
  }

  /** _failureDedupeKey, given where the session id is read from. */
  function KeyWith(p: Payload, ids: Ids): Option<string> {
    if RootFault(p) != "" then Some("root:" + RootFault(p))
    else if FirstRaw(ids) == None then None
    else Some(FirstRaw(ids).value + ("|" + FailureName(p)))
  }

  /** The key of an arriving payload. */
  function ArrivalKey(p: Payload): Option<string> { KeyWith(p, p.flat) }

  /** The key under which a buffered row is found. */
  function StoredKey(e: Row): Option<string> {
    KeyWith(e.payload, if e.session.Some? then e.payload.flat.(snake := e.session) else e.payload.flat)
  }

  /** _extract, for the fields the buffer itself reads. */
  function Extract(id: string, now: Stamp, kind: string, p: Payload): Row {
    Row(id, now.ts, now.at, kind, Session(p), p)
  }

  /** The row comes from _extract, apart from what folding adds. */
  predicate Extracted(e: Row) { e.session == Session(e.payload) }

  /** A root fault is named, or the session id is read alike in both places: it is on the top level and trimmed,
      or there is none with text in it at all. */
  predicate Coherent(p: Payload) {
    || RootFault(p) != ""
    || Session(p) == None
    || (FirstRaw(p.flat).Some? && HasText(FirstRaw(p.flat)) && Trim(FirstRaw(p.flat).value) == FirstRaw(p.flat).value)
  }

  predicate IsTrimmed(s: string) { s == "" || (!IsBlank(s[0]) && !IsBlank(s[|s| - 1])) }

  lemma {:induction false} TrimStartClean(s: string)
    ensures TrimStart(s) == "" || !IsBlank(TrimStart(s)[0])
  {
    if s != "" && IsBlank(s[0]) {
      TrimStartClean(s[1..]);
    }
  }

  lemma {:induction false} TrimEndClean(s: string)
    requires s == "" || !IsBlank(s[0])
    ensures IsTrimmed(TrimEnd(s))
  {
    if s != "" && IsBlank(s[|s| - 1]) {
      TrimEndClean(s[..|s| - 1]);
    }
  }

  /** Trimmed text is what trimming leaves alone. */
  lemma TrimmedIff(s: string)
    ensures Trim(s) == s <==> IsTrimmed(s)
    ensures IsTrimmed(Trim(s))
  {
    TrimStartClean(s);
    TrimEndClean(TrimStart(s));
  }

  lemma SameHead(x: string, y: string, tail: string)
    ensures x + tail == y + tail <==> x == y
  {
    if x + tail == y + tail {
      assert |x| == |y|;
      assert x == (x + tail)[..|x|] && y == (y + tail)[..|x|];
    }
  }

  /** The two keys of a payload agree exactly for the coherent ones. */
  lemma KeysAgreeIff(id: string, now: Stamp, kind: string, p: Payload)
    ensures ArrivalKey(p) == StoredKey(Extract(id, now, kind, p)) <==> Coherent(p)
    ensures StoredKey(Extract(id, now, kind, p)) == None ==> ArrivalKey(p) == None
  {
    TrimmedIff("");
    if RootFault(p) == "" && Session(p).Some? && FirstRaw(p.flat).Some? {
      var x, y := FirstRaw(p.flat).value, Session(p).value;
      SameHead(x, y, "|" + FailureName(p));
      TrimmedIff(x);
      TrimmedIff(y);
      SessionIsTrimmed(p);
    }
  }

  lemma SessionIsTrimmed(p: Payload)
    ensures Session(p).Some? ==> Session(p).value != "" && IsTrimmed(Session(p).value)
  {
    forall ids: Ids | Pick(ids).Some? ensures Pick(ids).value != "" && IsTrimmed(Pick(ids).value) {
      if HasText(ids.snake) {
        TrimmedIff(ids.snake.value);
      } else {
        TrimmedIff(ids.camel.value);
      }
    }
  }

  // ----- folding a failure into a buffered row

  function Faults(derived: seq<Derived>): set<string> { set d | d in derived :: d.fault }

  /** The list of folded failures after entry arrived. */
  function Folded(existing: Row, entry: Row): seq<Derived> {
    var known, fault := existing.payload.derived, Trim(entry.payload.fault);
    if fault != "" && fault != existing.payload.fault && fault !in Faults(known)
    then known + [Derived(fault, entry.kind, entry.at)] else known
  }

  predicate TakesOver(existing: Row, entry: Row) { entry.payload.isRoot && !existing.payload.isRoot }

  function Merged(existing: Row, entry: Row): Row {
    var primary := if TakesOver(existing, entry) then entry else existing;
    var derived := Folded(existing, entry);
    primary.(payload := primary.payload.(derived := if derived != [] then derived else primary.payload.derived,
                                         occurrences := Some(1)))
  }

  // ----- the log of slots

  /** The last max slots. */
  function Window(log: seq<Row>, max: nat): seq<Row> { if |log| <= max then log else log[|log| - max..] }

  lemma WindowUpdate(log: seq<Row>, max: nat, i: nat, r: Row)
    requires i < |Window(log, max)|
    ensures Window(log[|log| - |Window(log, max)| + i := r], max) == Window(log, max)[i := r]
  {
  }

  lemma WindowAppend(log: seq<Row>, max: nat, r: Row)
    ensures
      var longer := Window(log, max) + [r];
      Window(log + [r], max) == if |longer| > max then longer[1..] else longer
  {
  }

  /** The last failure row with the key, or -1. */
  function LastMatch(rows: seq<Row>, key: string): (i: int)
    ensures -1 <= i < |rows|
    ensures i >= 0 ==> IsFailureKind(rows[i].kind) && StoredKey(rows[i]) == Some(key)
  {
    if rows == [] then -1
    else if IsFailureKind(rows[|rows| - 1].kind) && StoredKey(rows[|rows| - 1]) == Some(key) then |rows| - 1
    else LastMatch(rows[..|rows| - 1], key)
  }

  lemma {:induction false} LastMatchIsLast(rows: seq<Row>, key: string, j: nat)
    requires LastMatch(rows, key) < j < |rows|
    ensures !(IsFailureKind(rows[j].kind) && StoredKey(rows[j]) == Some(key))
  {
    if j < |rows| - 1 {
      LastMatchIsLast(rows[..|rows| - 1], key, j);
    }
  }

  function MatchFor(rows: seq<Row>, e: Row): (i: int)
    ensures -1 <= i < |rows|
  {
    if IsFailureKind(e.kind) && ArrivalKey(e.payload).Some? then LastMatch(rows, ArrivalKey(e.payload).value) else -1
  }

  /** The log after one more event: a slot of the window is updated in place, or a slot is added. */
  function After(log: seq<Row>, max: nat, e: Row): seq<Row> {
    var w := Window(log, max);
    var i := MatchFor(w, e);
    if i >= 0 then log[|log| - |w| + i := Merged(w[i], e)] else log + [e]
  }

  function Replay(max: nat, events: seq<Row>): seq<Row> {
    if events == [] then [] else After(Replay(max, events[..|events| - 1]), max, events[|events| - 1])
  }

  // ----- the buffer

  class DoorbellBuffer {
    const max: nat
    var buf: seq<Row>
    ghost var log: seq<Row>

    ghost predicate Valid()
      reads this
    {
      buf == Window(log, max)
    }

    constructor (capacity: nat)
      ensures Valid() && max == capacity && log == []
    {
      max := capacity;
      buf := [];
      log := [];
    }

    /** _findFailureIndex: the search runs backwards. */
    method FindFailureIndex(key: string) returns (i: int)
      ensures i == LastMatch(buf, key)
    {
      i := |buf| - 1;
      assert buf[..|buf|] == buf;
      while i >= 0
        invariant -1 <= i < |buf|
        invariant LastMatch(buf, key) == LastMatch(buf[..i + 1], key)
      {
        assert buf[..i + 1][..i] == buf[..i];
        if IsFailureKind(buf[i].kind) && StoredKey(buf[i]) == Some(key) {
          return;
        }
        i := i - 1;
      }
    }

    method Update(i: nat, r: Row)
      requires Valid() && i < |buf|
      modifies this`buf, this`log
      ensures Valid() && log == old(log[|log| - |buf| + i := r])
    {
      WindowUpdate(log, max, i, r);
      log := log[|log| - |buf| + i := r];
      buf := buf[i := r];
    }

    method Append(r: Row)
      requires Valid()
      modifies this`buf, this`log
      ensures Valid() && log == old(log) + [r]
    {
      WindowAppend(log, max, r);
      log := log + [r];
      buf := buf + [r];
      if |buf| > max {
        buf := buf[1..];
      }
    }

    /** _upsert */
    method Upsert(entry: Row)
      requires Valid()
      modifies this`buf, this`log
      ensures Valid() && log == After(old(log), max, entry)
    {
      var i := -1;
      var key := ArrivalKey(entry.payload);
      if IsFailureKind(entry.kind) && key.Some? {
        i := FindFailureIndex(key.value);
      }
      assert i == MatchFor(buf, entry);
      if i >= 0 {
        Update(i, Merged(buf[i], entry));
      } else {
        Append(entry);
      }
    }

    method Push(kind: string, p: Payload, id: string, now: Stamp)
      requires Valid()
      modifies this`buf, this`log
      ensures Valid()
      ensures log == if kind in BUFFERED then After(old(log), max, Extract(id, now, kind, p)) else old(log)
    {
      if kind in BUFFERED {
        Upsert(Extract(id, now, kind, p));
      }
    }

    /** at is the stored time, when it is a number. */
    method HydrateFromDisk(kind: string, p: Payload, at: Option<Stamp>, id: string, now: Stamp)
      requires Valid()
      modifies this`buf, this`log
      ensures Valid()
      ensures log ==
        if kind in BUFFERED then After(old(log), max, Extract(id, if at.Some? then at.value else now, kind, p))
        else old(log)
    {
      if kind in BUFFERED {
        var entry := Extract(id, now, kind, p);
        if at.Some? {
          entry := entry.(ts := at.value.ts, at := at.value.at);
        }
        Upsert(entry);
      }
    }
  }

  // ----- what holds of every run

  /** The buffer never holds more than max rows, and no event is dropped without a slot of its own or a shared one. */
  lemma {:induction false} ReplayGrows(max: nat, events: seq<Row>, n: nat)
    requires n <= |events|
    ensures |Replay(max, events[..n])| <= |Replay(max, events)| <= |Replay(max, events[..n])| + (|events| - n)
    decreases |events| - n
  {
    if n < |events| {
      ReplayGrows(max, events, n + 1);
      assert events[..n + 1][..n] == events[..n];
    } else {
      assert events[..n] == events;
    }
  }

  ghost predicate SameKey(a: Row, b: Row) {
    IsFailureKind(a.kind) && IsFailureKind(b.kind) && StoredKey(a).Some? && StoredKey(a) == StoredKey(b)
  }

  ghost predicate OnePerKey(rows: seq<Row>) {
    forall i, j :: 0 <= i < j < |rows| ==> !SameKey(rows[i], rows[j])
  }

  /** Rows as they arrive: extracted, and coherent if they report a failure. */
  ghost predicate WellKeyed(e: Row) { Extracted(e) && (IsFailureKind(e.kind) ==> Coherent(e.payload)) }

  ghost predicate AllWellKeyed(rows: seq<Row>) { forall i :: 0 <= i < |rows| ==> WellKeyed(rows[i]) }

  lemma ArrivesUnderItsKey(e: Row)
    requires WellKeyed(e) && IsFailureKind(e.kind)
    ensures StoredKey(e) == ArrivalKey(e.payload)
  {
    KeysAgreeIff(e.id, Stamp(e.ts, e.at), e.kind, e.payload);
  }

  lemma MergedKeepsKey(existing: Row, entry: Row)
    requires WellKeyed(existing) && WellKeyed(entry) && IsFailureKind(existing.kind) && IsFailureKind(entry.kind)
    requires StoredKey(existing) == ArrivalKey(entry.payload)
    ensures WellKeyed(Merged(existing, entry)) && IsFailureKind(Merged(existing, entry).kind)
    ensures StoredKey(Merged(existing, entry)) == StoredKey(existing)
  {
    ArrivesUnderItsKey(entry);
    MergedReads(existing, entry);
  }

  /** Folding touches neither the session id nor the fields the key is made of. */
  lemma MergedReads(existing: Row, entry: Row)
    ensures
      var primary := if TakesOver(existing, entry) then entry else existing;
      var m := Merged(existing, entry);
      m.kind == primary.kind && StoredKey(m) == StoredKey(primary) && (Extracted(m) <==> Extracted(primary))
      && (Coherent(m.payload) <==> Coherent(primary.payload))
  {
  }

  lemma UpdateKeepsKeys(log: seq<Row>, max: nat, e: Row, i: nat)
    requires AllWellKeyed(log) && WellKeyed(e) && OnePerKey(Window(log, max))
    requires i < |Window(log, max)| && IsFailureKind(e.kind)
    requires IsFailureKind(Window(log, max)[i].kind) && StoredKey(Window(log, max)[i]) == ArrivalKey(e.payload)
    ensures Orderly(log[|log| - |Window(log, max)| + i := Merged(Window(log, max)[i], e)], max)
  {
    var w := Window(log, max);
    assert WellKeyed(log[|log| - |w| + i]);
    MergedKeepsKey(w[i], e);
    WindowUpdate(log, max, i, Merged(w[i], e));
    ReplaceKeepsOne(w, i, Merged(w[i], e));
  }

  lemma AppendKeepsKeys(log: seq<Row>, max: nat, e: Row)
    requires AllWellKeyed(log) && WellKeyed(e) && OnePerKey(Window(log, max)) && MatchFor(Window(log, max), e) == -1
    ensures Orderly(log + [e], max)
  {
    var w := Window(log, max);
    forall j | 0 <= j < |w| ensures !SameKey(w[j], e) {
      NoMatchNoKey(w, e, j);
    }
    AppendKeepsOne(log, max, e);
  }

  ghost predicate Orderly(log: seq<Row>, max: nat) { AllWellKeyed(log) && OnePerKey(Window(log, max)) }

  lemma AfterKeepsKeys(log: seq<Row>, max: nat, e: Row)
    requires Orderly(log, max) && WellKeyed(e)
    ensures Orderly(After(log, max, e), max)
  {
    var i := MatchFor(Window(log, max), e);
    if i >= 0 {
      UpdateKeepsKeys(log, max, e, i);
    } else {
      AppendKeepsKeys(log, max, e);
    }
  }

  lemma NoMatchNoKey(w: seq<Row>, e: Row, j: nat)
    requires WellKeyed(e) && MatchFor(w, e) == -1 && j < |w|
    ensures !SameKey(w[j], e)
  {
    if IsFailureKind(e.kind) && StoredKey(e).Some? {
      ArrivesUnderItsKey(e);
      LastMatchIsLast(w, StoredKey(e).value, j);
    }
  }

  lemma ReplaceKeepsOne(w: seq<Row>, i: nat, r: Row)
    requires OnePerKey(w) && i < |w| && IsFailureKind(w[i].kind) && IsFailureKind(r.kind)
    requires StoredKey(r) == StoredKey(w[i])
    ensures OnePerKey(w[i := r])
  {
    var v := w[i := r];
    forall j, k | 0 <= j < k < |v| ensures !SameKey(v[j], v[k]) {
      assert !SameKey(w[j], w[k]);
    }
  }

  lemma AppendKeepsOne(log: seq<Row>, max: nat, e: Row)
    requires OnePerKey(Window(log, max))
    requires forall j :: 0 <= j < |Window(log, max)| ==> !SameKey(Window(log, max)[j], e)
    ensures OnePerKey(Window(log + [e], max))
  {
    var w, v := Window(log, max), Window(log + [e], max);
    if max > 0 {
      var drop := |w| + 1 - |v|;
      assert forall k :: 0 <= k < |v| ==> v[k] == (w + [e])[drop + k];
      forall j, k | 0 <= j < k < |v| ensures !SameKey(v[j], v[k]) {
        assert drop + k < |w| ==> !SameKey(w[drop + j], w[drop + k]);
        assert drop + k == |w| ==> !SameKey(w[drop + j], e);
      }
    }
  }

  /** However events arrive, no two failure rows of the buffer share a key, if all payloads are coherent. */
  lemma {:induction false} OneRowPerKey(max: nat, events: seq<Row>)
    requires AllWellKeyed(events)
    ensures Orderly(Replay(max, events), max)
  {
    if events != [] {
      var n := |events| - 1;
      assert forall i :: 0 <= i < n ==> events[..n][i] == events[i];
      OneRowPerKey(max, events[..n]);
      AfterKeepsKeys(Replay(max, events[..n]), max, events[n]);
    }
  }

  /** Coherence is what it takes: reporting a failure twice leaves one row exactly when its payload is coherent
      and names an incident. */
  lemma TwiceIsOneIff(max: nat, a: Row, b: Row)
    requires max >= 1 && Extracted(a) && Extracted(b) && a.payload == b.payload
    requires IsFailureKind(a.kind) && IsFailureKind(b.kind)
    ensures |Replay(max, [a, b])| == 1 <==> Coherent(a.payload) && StoredKey(a) != None
  {
    assert [a, b][..1] == [a] && [a][..0] == [];
    assert Replay(max, [a]) == [a];
    KeysAgreeIff(a.id, Stamp(a.ts, a.at), a.kind, a.payload);
    assert [a][..0] == [];
    if ArrivalKey(b.payload).Some? {
      assert LastMatch([a], ArrivalKey(b.payload).value) == 0 <==> StoredKey(a) == ArrivalKey(b.payload);
    }
  }

  /** The row differs only in the failures folded into it, and none of those is forgotten. */
  ghost predicate SameIncident(before: Row, after: Row) {
    && before.payload.derived <= after.payload.derived
    && after == before.(payload := before.payload.(derived := after.payload.derived,
                                                   occurrences := after.payload.occurrences))
  }

  lemma AfterKeepsRoot(log: seq<Row>, max: nat, e: Row, j: nat)
    requires j < |log| && log[j].payload.isRoot
    ensures j < |After(log, max, e)| && SameIncident(log[j], After(log, max, e)[j])
    ensures After(log, max, e)[j].payload.isRoot
  {
    var w := Window(log, max);
    var i := MatchFor(w, e);
    if i >= 0 && j == |log| - |w| + i {
      assert w[i] == log[j];
    }
  }

  /** Once a slot shows the root of its incident, it shows that row for good: later failures are only folded in. */
  lemma {:induction false} RootStays(max: nat, events: seq<Row>, n: nat, j: nat)
    requires n <= |events| && j < |Replay(max, events[..n])| && Replay(max, events[..n])[j].payload.isRoot
    ensures j < |Replay(max, events)| && SameIncident(Replay(max, events[..n])[j], Replay(max, events)[j])
    ensures Replay(max, events)[j].payload.isRoot
    decreases |events| - n
  {
    if n < |events| {
      var log := Replay(max, events[..n]);
      assert events[..n + 1][..n] == events[..n];
      AfterKeepsRoot(log, max, events[n], j);
      RootStays(max, events, n + 1, j);
    } else {
      assert events[..n] == events;
    }
  }

  function Mentioned(e: Row): set<string> { Faults(e.payload.derived) + {e.payload.fault} - {""} }

  /** The arriving fault is on record afterwards, and so is everything recorded before, unless a root takes the
      slot over: then the fault id of the row it replaces is lost if it was not already known otherwise. */
  lemma FoldingForgetsIff(existing: Row, entry: Row)
    ensures
      var fault, m := Trim(entry.payload.fault), Merged(existing, entry);
      fault == "" || fault in Mentioned(m) || fault == Trim(m.payload.fault)
    ensures Mentioned(existing) <= Mentioned(Merged(existing, entry)) <==>
      || !TakesOver(existing, entry)
      || existing.payload.fault in {"", entry.payload.fault} + Faults(existing.payload.derived)
      || (Folded(existing, entry) == [] && existing.payload.fault in Faults(entry.payload.derived))
  {
    FoldedFaults(existing, entry);
    var known, folded, m := existing.payload.derived, Folded(existing, entry), Merged(existing, entry);
    assert known != [] ==> folded != [];
    if TakesOver(existing, entry) {
      assert m.payload.fault == entry.payload.fault;
      assert m.payload.derived == if folded != [] then folded else entry.payload.derived;
      if existing.payload.fault != "" {
        assert existing.payload.fault in Mentioned(existing);
      }
    }
  }

  /** Folding adds the arriving fault to the known ones, if it is new. */
  lemma FoldedFaults(existing: Row, entry: Row)
    ensures
      var fault := Trim(entry.payload.fault);
      Faults(Folded(existing, entry)) ==
        Faults(existing.payload.derived) + if fault == "" || fault == existing.payload.fault then {} else {fault}
  {
    var known, folded := existing.payload.derived, Folded(existing, entry);
    if folded != known {
      var last := Derived(Trim(entry.payload.fault), entry.kind, entry.at);
      assert forall d :: d in folded <==> d in known || d == last;
      assert last.fault in Faults(folded);
    }
  }

  // ----- queries

  datatype Query = Query(types: seq<string>, kind: string, agent: string, session: string, task: string,
                         since: Option<int>, limit: Option<int>)

  datatype Answer = Answer(total: nat, events: seq<Row>)

  function WithoutMd(s: string): string {
    if |s| >= 3 && Lower(s[|s| - 3..]) == ".md" then s[..|s| - 3] else s
  }

  predicate TaskMatches(asked: string, task: Option<string>) {
    var norm := Upper(WithoutMd(asked));
    var mine := Upper(WithoutMd(if task.Some? then task.value else ""));
    mine != "" && (Includes(mine, norm) || Includes(norm, mine))
  }

  predicate Wanted(q: Query, e: Row) {
    && (if q.types != [] then e.kind in q.types else q.kind != "" ==> e.kind == q.kind)
    && (q.agent != "" ==> e.payload.agent == Some(q.agent))
    && (q.session != "" ==> e.session == Some(q.session))
    && (q.task != "" ==> TaskMatches(q.task, e.payload.task))
    && (q.since.Some? ==> e.ts > q.since.value)
  }

  function Wants(q: Query): Row -> bool { (e: Row) => Wanted(q, e) }

  function Keep(rows: seq<Row>, q: Query): seq<Row> { Where(rows, Wants(q)) }

  /** s.slice(-n) */
  function SliceFromEnd(s: seq<Row>, n: int): seq<Row> {
    if n > 0 then (if n >= |s| then s else s[|s| - n..])
    else if -n >= |s| then [] else s[-n..]
  }

  function Reverse(s: seq<Row>): (r: seq<Row>)
    ensures |r| == |s|
  {
    if s == [] then [] else [s[|s| - 1]] + Reverse(s[..|s| - 1])
  }

  function Limit(q: Query): int {
    var n := if q.limit.Some? then q.limit.value else 50;
    if n < 500 then n else 500
  }

  /** query */
  function Ask(rows: seq<Row>, q: Query): Answer {
    Answer(|Keep(rows, q)|, Reverse(SliceFromEnd(Keep(rows, q), Limit(q))))
  }

  lemma {:induction false} ReverseAt(s: seq<Row>, i: nat)
    requires i < |s|
    ensures Reverse(s)[i] == s[|s| - 1 - i]
  {
    if i > 0 {
      ReverseAt(s[..|s| - 1], i - 1);
    }
  }

  /** The positions of the rows that are kept, in order. */
  ghost predicate Positions(rows: seq<Row>, q: Query, at: seq<nat>) {
    && (forall i :: 0 <= i < |at| ==> at[i] < |rows| && Wanted(q, rows[at[i]]))
    && (forall i, j :: 0 <= i < j < |at| ==> at[i] < at[j])
    && (forall k :: 0 <= k < |rows| && Wanted(q, rows[k]) ==> k in at)
  }

  function WantedAt(rows: seq<Row>, q: Query): seq<nat> {
    if rows == [] then []
    else WantedAt(rows[..|rows| - 1], q) + if Wanted(q, rows[|rows| - 1]) then [|rows| - 1] else []
  }

  lemma {:induction false} WantedAtBelow(rows: seq<Row>, q: Query)
    ensures forall i :: 0 <= i < |WantedAt(rows, q)| ==> WantedAt(rows, q)[i] < |rows|
    ensures forall i, j :: 0 <= i < j < |WantedAt(rows, q)| ==> WantedAt(rows, q)[i] < WantedAt(rows, q)[j]
  {
    if rows != [] {
      WantedAtBelow(rows[..|rows| - 1], q);
    }
  }

  lemma {:induction false} WantedAtIff(rows: seq<Row>, q: Query, k: nat)
    requires k < |rows|
    ensures k in WantedAt(rows, q) <==> Wanted(q, rows[k])
  {
    var n := |rows| - 1;
    WantedAtBelow(rows[..n], q);
    if k < n {
      WantedAtIff(rows[..n], q, k);
    }
  }

  lemma {:induction false} KeepAt(rows: seq<Row>, q: Query)
    ensures |Keep(rows, q)| == |WantedAt(rows, q)|
    ensures forall i :: 0 <= i < |WantedAt(rows, q)| ==>
      WantedAt(rows, q)[i] < |rows| && Keep(rows, q)[i] == rows[WantedAt(rows, q)[i]]
  {
    if rows != [] {
      KeepAt(rows[..|rows| - 1], q);
    }
  }

  lemma KeepPositions(rows: seq<Row>, q: Query) returns (at: seq<nat>)
    ensures Positions(rows, q, at) && |Keep(rows, q)| == |at|
    ensures forall i :: 0 <= i < |at| ==> Keep(rows, q)[i] == rows[at[i]]
  {
    at := WantedAt(rows, q);
    WantedAtBelow(rows, q);
    KeepAt(rows, q);
    forall i | 0 <= i < |at| ensures Wanted(q, rows[at[i]]) {
      WantedAtIff(rows, q, at[i]);
    }
    forall k | 0 <= k < |rows| && Wanted(q, rows[k]) ensures k in at {
      WantedAtIff(rows, q, k);
    }
  }

  /** With a limit of at least 1, the answer holds the last wanted rows of the buffer, the last one first, and
      counts all wanted rows. */
  lemma AnswerIsNewestFirst(rows: seq<Row>, q: Query) returns (at: seq<nat>)
    requires Limit(q) >= 1
    ensures Positions(rows, q, at)
    ensures
      var a := Ask(rows, q);
      && a.total == |at| && |a.events| == (if |at| < Limit(q) then |at| else Limit(q))
      && forall i :: 0 <= i < |a.events| ==> a.events[i] == rows[at[|at| - 1 - i]]
  {
    at := KeepPositions(rows, q);
    var kept := SliceFromEnd(Keep(rows, q), Limit(q));
    forall i | 0 <= i < |kept| ensures Reverse(kept)[i] == rows[at[|at| - 1 - i]] {
      ReverseAt(kept, i);
    }
  }

  /** A row that the query asks for. */
  function SoughtRow(q: Query): Row {
    Row("", if q.since.Some? then q.since.value + 1 else 0, "", if q.types != [] then q.types[0] else q.kind,
        Some(q.session),
        Payload(None, Ids(None, None), Ids(None, None), None, "", false, [], None, Some(q.agent),
                Some(if WithoutMd(q.task) == "" then "X" else q.task), ""))
  }

  lemma SoughtIsWanted(q: Query)
    ensures Wanted(q, SoughtRow(q))
  {
    var norm, mine := Upper(WithoutMd(q.task)), SoughtRow(q).payload.task;
    assert WithoutMd(mine.value) != "" && (norm == "" || Upper(WithoutMd(mine.value)) == norm);
    assert norm <= Upper(WithoutMd(mine.value));
  }

  /** At most as many rows as were asked for, none when a negative number was. */
  predicate WithinLimit(rows: seq<Row>, q: Query) {
    |Ask(rows, q).events| <= (if Limit(q) > 0 then Limit(q) else 0)
  }

  /** The limit is kept on every buffer exactly when it is at least 1: a limit of -n gives everything but the n
      oldest rows. */
  lemma LimitHonouredIff(q: Query)
    ensures (forall rows :: WithinLimit(rows, q)) <==> Limit(q) >= 1
  {
    if Limit(q) >= 1 {
      forall rows ensures WithinLimit(rows, q) {
        var at := AnswerIsNewestFirst(rows, q);
      }
    } else {
      var rows := seq(1 - Limit(q), _ => SoughtRow(q));
      SoughtIsWanted(q);
      WhereAll(rows, Wants(q), true);
      assert |SliceFromEnd(Keep(rows, q), Limit(q))| == 1;
      assert !WithinLimit(rows, q);
    }
  }
}
