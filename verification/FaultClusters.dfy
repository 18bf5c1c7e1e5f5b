/** Folding ERROR rows of the log centre into independent faults. */
module FaultClusters {
  import opened Text
  import opened Sorting

  const DEFAULT_FAILURE_WINDOW_MS: int := 30000

  datatype Level = ERROR | WARN | INFO

  /** A flag of a row: it may have none. */
  datatype Flag = Absent | On | Off

  /** The time properties of a row, as far as it has them: the legacy flag, ts as a number (0 if it is none) and the
      instant its at stands for (0 if none). */
  datatype Clock = Clock(legacy: Flag, ts: Option<nat>, at: Option<nat>)

  /** rowTimestamp, with 0 for null. */
  function Known(c: Clock): nat {
    if c.legacy == On then 0
    else if c.ts.Some? && c.ts.value > 0 then c.ts.value
    else if c.at.Some? then c.at.value
    else 0
  }

  /** Object.assign(c, d) */
  function Merge(c: Clock, d: Clock): Clock {
    Clock(if d.legacy != Absent then d.legacy else c.legacy, if d.ts.Some? then d.ts else c.ts,
          if d.at.Some? then d.at else c.at)
  }

  /** A log row with its fields already picked out; call is "" when the row names no call. */
  datatype Row = Row(level: Level, session: string, agent: string, status: string, call: string,
                     errorCode: string, signature: string, clock: Clock, text: string)

  function Ts(r: Row): nat { Known(r.clock) }

  function Code(r: Row): string {
    if r.call == "" && r.errorCode == "UNKNOWN" then
      if r.signature != "" then "MESSAGE_" + r.signature[..if |r.signature| < 72 then |r.signature| else 72]
      else "UNKNOWN"
    else r.errorCode
  }

  predicate IsCall(r: Row) { r.level == ERROR && r.call != "" }

  predicate IsWindow(r: Row) { r.level == ERROR && r.call == "" }

  function CallKey(r: Row): string {
    "call:" + r.session + ":" + r.call + ":" + r.status + ":" + Code(r)
  }

  function Base(r: Row): string {
    "window:" + r.session + ":" + r.agent + ":" + r.status + ":" + Code(r)
  }

  function Time(r: Row): int { Ts(r) }

  // ----- what it means for two rows to report one fault

  /** p is the last row before k with k's base. */
  ghost predicate Precedes(s: seq<Row>, p: nat, k: nat)
    requires k < |s|
  {
    p < k && IsWindow(s[p]) && Base(s[p]) == Base(s[k])
    && forall m :: p < m < k && IsWindow(s[m]) ==> Base(s[m]) != Base(s[k])
  }

  /** Row k follows its predecessor closely enough. */
  ghost predicate Joins(s: seq<Row>, w: int, k: nat)
    requires k < |s|
  {
    exists p: nat :: Precedes(s, p, k) && Ts(s[p]) > 0 && Ts(s[k]) > 0 && Ts(s[k]) - Ts(s[p]) <= w
  }

  /** Rows i and j (i < j) of the sorted list report the same fault. */
  ghost predicate Linked(s: seq<Row>, w: int, i: nat, j: nat)
    requires i < j < |s|
  {
    || (IsCall(s[i]) && IsCall(s[j]) && CallKey(s[i]) == CallKey(s[j]))
    || (IsWindow(s[i]) && IsWindow(s[j]) && Base(s[i]) == Base(s[j]) && Unbroken(s, w, i, j))
  }

  /** Every row of j's base after i up to j follows its predecessor closely. */
  ghost predicate Unbroken(s: seq<Row>, w: int, i: nat, j: nat)
    requires i < j < |s|
  {
    forall k :: i < k <= j && IsWindow(s[k]) && Base(s[k]) == Base(s[j]) ==> Joins(s, w, k)
  }

  // ----- the streaming clusterer

  /** What a group displays: the fields of the row it took over last, and its own merged time properties. */
  datatype Face = Face(shown: Row, clock: Clock)

  /** The group takes over the properties of a row that is not older than the time it shows. */
  function TakeOver(f: Face, r: Row): Face {
    if Ts(r) >= Known(f.clock) then Face(r, Merge(f.clock, r.clock)) else f
  }

  /** What a group displays after its rows. */
  function FaceOf(rows: seq<Row>): Face
    requires rows != []
  {
    if |rows| == 1 then Face(rows[0], rows[0].clock) else TakeOver(FaceOf(rows[..|rows| - 1]), rows[|rows| - 1])
  }

  /** A group under construction. */
  class Fault {
    const level: Level
    const key: string
    var rows: seq<Row>
    var face: Face

    constructor (key: string, row: Row)
      ensures level == row.level && this.key == key && rows == [] && face == Face(row, row.clock)
    {
      level := row.level;
      this.key := key;
      rows := [];
      face := Face(row, row.clock);
    }

    method Absorb(row: Row)
      modifies this
      ensures rows == old(rows) + [row]
      ensures face == TakeOver(old(face), row)
    {
      rows := rows + [row];
      if Ts(row) >= Known(face.clock) {
        face := Face(row, Merge(face.clock, row.clock));
      }
    }
  }

  /** The time a group sorts by. */
  function Recorded(f: Fault): nat
    reads f
  {
    Known(f.face.clock)
  }

  datatype Recent = Recent(group: Fault, lastTs: nat)

  /** The rows of s that were put into f, in order. */
  ghost function Members(s: seq<Row>, home: seq<Fault>, f: Fault): seq<Row>
    requires |home| == |s|
  {
    if s == [] then []
    else Members(s[..|s| - 1], home[..|s| - 1], f) + if home[|s| - 1] == f then [s[|s| - 1]] else []
  }

  /** Two rows have one home exactly when they are linked. */
  ghost predicate Grouped(s: seq<Row>, w: int, home: seq<Fault>) {
    |home| == |s| && forall i, j :: 0 <= i < j < |s| ==> (home[i] == home[j] <==> Linked(s, w, i, j))
  }

  /** Whether a row joins its predecessor, and whether two rows are linked, depends on no later row. */
  lemma PrecedesPrefix(s: seq<Row>, t: seq<Row>, p: nat, k: nat)
    requires t <= s && k < |t|
    ensures Precedes(t, p, k) <==> Precedes(s, p, k)
  {
  }

  lemma JoinsPrefix(s: seq<Row>, t: seq<Row>, w: int, k: nat)
    requires t <= s && k < |t|
    ensures Joins(t, w, k) <==> Joins(s, w, k)
  {
    forall p: nat ensures Precedes(t, p, k) <==> Precedes(s, p, k) {
      PrecedesPrefix(s, t, p, k);
    }
  }

  lemma UnbrokenPrefix(s: seq<Row>, t: seq<Row>, w: int, i: nat, j: nat)
    requires t <= s && i < j < |t|
    ensures Unbroken(t, w, i, j) <==> Unbroken(s, w, i, j)
  {
    forall k | i < k <= j ensures s[k] == t[k] && (Joins(t, w, k) <==> Joins(s, w, k)) {
      JoinsPrefix(s, t, w, k);
    }
  }

  lemma LinkedPrefix(s: seq<Row>, t: seq<Row>, w: int, i: nat, j: nat)
    requires t <= s && i < j < |t|
    ensures Linked(t, w, i, j) <==> Linked(s, w, i, j)
  {
    UnbrokenPrefix(s, t, w, i, j);
    assert s[i] == t[i] && s[j] == t[j];
  }

  /** A window row is linked to what its predecessor is linked to, if it joins at all. */
  lemma LinkedThroughLast(s: seq<Row>, w: int, p: nat, i: nat, n: nat)
    requires i < n < |s| && IsWindow(s[n]) && Precedes(s, p, n)
    ensures Linked(s, w, i, n) <==>
      Joins(s, w, n) && (i == p || (i < p && Linked(s, w, i, p)))
  {
    if IsWindow(s[i]) && Base(s[i]) == Base(s[n]) {
      assert i <= p;
      UnbrokenThroughLast(s, w, p, i, n);
    }
  }

  lemma UnbrokenThroughLast(s: seq<Row>, w: int, p: nat, i: nat, n: nat)
    requires i <= p < n < |s| && IsWindow(s[n]) && Precedes(s, p, n)
    ensures Unbroken(s, w, i, n) <==> Joins(s, w, n) && (i == p || Unbroken(s, w, i, p))
  {
    assert forall k :: p < k < n && IsWindow(s[k]) ==> Base(s[k]) != Base(s[n]);
  }

  /** What the two maps remember about the rows seen so far. */
  ghost predicate RemembersCalls(s: seq<Row>, home: seq<Fault>, byCall: map<string, Fault>)
    requires |home| == |s|
  {
    && (forall i :: 0 <= i < |s| && IsCall(s[i]) ==> CallKey(s[i]) in byCall && byCall[CallKey(s[i])] == home[i])
    && (forall k :: k in byCall ==> exists i :: 0 <= i < |s| && IsCall(s[i]) && CallKey(s[i]) == k)
  }

  ghost predicate RemembersWindows(s: seq<Row>, home: seq<Fault>, latest: map<string, Recent>)
    requires |home| == |s|
  {
    && (forall i :: 0 <= i < |s| && IsWindow(s[i]) ==> Base(s[i]) in latest)
    && (forall b :: b in latest ==> exists i :: LastOf(s, b, i) && latest[b] == Recent(home[i], Ts(s[i])))
  }

  ghost predicate Remembers(s: seq<Row>, home: seq<Fault>, byCall: map<string, Fault>, latest: map<string, Recent>)
    requires |home| == |s|
  {
    RemembersCalls(s, home, byCall) && RemembersWindows(s, home, latest)
  }

  ghost predicate LastOf(s: seq<Row>, b: string, i: int) {
    0 <= i < |s| && IsWindow(s[i]) && Base(s[i]) == b
    && forall m :: i < m < |s| && IsWindow(s[m]) ==> Base(s[m]) != b
  }

  ghost predicate Distinct(fs: seq<Fault>) {
    forall i, j :: 0 <= i < j < |fs| ==> fs[i] != fs[j]
  }

  /** Everything the output so far says about the rows seen so far. */
  ghost predicate Faithful(s: seq<Row>, w: int, home: seq<Fault>, output: seq<Fault>)
    reads set f | f in output
  {
    && Grouped(s, w, home)
    && Distinct(output)
    && (forall i :: 0 <= i < |s| ==> home[i] in output && home[i].level == s[i].level)
    && (forall f :: f in output ==> Collects(s, home, f))
  }

  /** f holds exactly its rows, in order, and displays what they leave. */
  ghost predicate Collects(s: seq<Row>, home: seq<Fault>, f: Fault)
    requires |home| == |s|
    reads f
  {
    f.rows == Members(s, home, f) && f.rows != [] && f.face == FaceOf(f.rows)
  }

  lemma MembersPrefix(s: seq<Row>, home: seq<Fault>, r: Row, h: Fault, f: Fault)
    requires |home| == |s|
    ensures Members(s + [r], home + [h], f) == Members(s, home, f) + if h == f then [r] else []
  {
    assert (s + [r])[..|s|] == s && (home + [h])[..|s|] == home;
  }

  lemma {:induction false} MembersIn(s: seq<Row>, home: seq<Fault>, f: Fault)
    requires |home| == |s|
    ensures forall r :: r in Members(s, home, f) ==> r in s
    ensures f !in home ==> Members(s, home, f) == []
  {
    if s != [] {
      MembersIn(s[..|s| - 1], home[..|s| - 1], f);
    }
  }

  /** Extending the grouping by one row whose home follows the links. */
  lemma GroupedStep(s: seq<Row>, w: int, home: seq<Fault>, r: Row, h: Fault)
    requires Grouped(s, w, home)
    requires forall i :: 0 <= i < |s| ==> (home[i] == h <==> Linked(s + [r], w, i, |s|))
    ensures Grouped(s + [r], w, home + [h])
  {
    var t := s + [r];
    forall i, j | 0 <= i < j < |t| ensures (home + [h])[i] == (home + [h])[j] <==> Linked(t, w, i, j) {
      if j < |s| {
        LinkedPrefix(t, s, w, i, j);
      }
    }
  }

  /** h is where row r belongs after the rows of s. */
  ghost predicate HomeFor(s: seq<Row>, w: int, home: seq<Fault>, r: Row, h: Fault)
    requires |home| == |s|
  {
    forall i :: 0 <= i < |s| ==> (home[i] == h <==> Linked(s + [r], w, i, |s|))
  }

  /** No earlier row reports r's fault. */
  ghost predicate Fresh(s: seq<Row>, w: int, r: Row) {
    forall i :: 0 <= i < |s| ==> !Linked(s + [r], w, i, |s|)
  }

  lemma CallHit(s: seq<Row>, w: int, home: seq<Fault>, byCall: map<string, Fault>, r: Row)
    requires Grouped(s, w, home) && RemembersCalls(s, home, byCall) && IsCall(r) && CallKey(r) in byCall
    ensures HomeFor(s, w, home, r, byCall[CallKey(r)]) && byCall[CallKey(r)] in home
  {
    var h := byCall[CallKey(r)];
    var c :| 0 <= c < |s| && IsCall(s[c]) && CallKey(s[c]) == CallKey(r);
    assert home[c] == h;
    forall i | 0 <= i < |s| ensures home[i] == h <==> Linked(s + [r], w, i, |s|) {
      CallLinked(s, w, r, i);
      if i < c {
        assert home[i] == home[c] <==> Linked(s, w, i, c);
      } else if c < i {
        assert home[c] == home[i] <==> Linked(s, w, c, i);
      }
    }
  }

  lemma CallLinked(s: seq<Row>, w: int, r: Row, i: nat)
    requires i < |s| && IsCall(r)
    ensures Linked(s + [r], w, i, |s|) <==> IsCall(s[i]) && CallKey(s[i]) == CallKey(r)
  {
    assert (s + [r])[|s|] == r && (s + [r])[i] == s[i];
  }

  lemma CallMiss(s: seq<Row>, w: int, home: seq<Fault>, byCall: map<string, Fault>, r: Row)
    requires |home| == |s| && RemembersCalls(s, home, byCall) && IsCall(r) && CallKey(r) !in byCall
    ensures Fresh(s, w, r)
  {
    forall i | 0 <= i < |s| ensures !Linked(s + [r], w, i, |s|) {
      CallLinked(s, w, r, i);
    }
  }

  lemma LastPrecedes(s: seq<Row>, r: Row, p: nat)
    requires IsWindow(r) && LastOf(s, Base(r), p)
    ensures Precedes(s + [r], p, |s|)
    ensures forall q: nat :: Precedes(s + [r], q, |s|) ==> q == p
  {
  }

  lemma WindowHit(s: seq<Row>, w: int, home: seq<Fault>, r: Row, p: nat)
    requires Grouped(s, w, home) && IsWindow(r) && LastOf(s, Base(r), p)
    ensures
      var close := Ts(r) > 0 && Ts(s[p]) > 0 && Ts(r) - Ts(s[p]) <= w;
      if close then HomeFor(s, w, home, r, home[p]) else Fresh(s, w, r)
  {
    var t := s + [r];
    LastPrecedes(s, r, p);
    assert t[|s|] == r && t[p] == s[p];
    assert Joins(t, w, |s|) <==> Ts(r) > 0 && Ts(s[p]) > 0 && Ts(r) - Ts(s[p]) <= w;
    forall i | 0 <= i < |s| ensures Linked(t, w, i, |s|) <==> Joins(t, w, |s|) && home[i] == home[p] {
      LinkedThroughLast(t, w, p, i, |s|);
      if i < p {
        LinkedPrefix(t, s, w, i, p);
      } else if p < i {
        assert home[p] == home[i] <==> Linked(s, w, p, i);
      }
    }
  }

  lemma WindowMiss(s: seq<Row>, w: int, home: seq<Fault>, byCall: map<string, Fault>,
                   latest: map<string, Recent>, r: Row)
    requires |home| == |s| && Remembers(s, home, byCall, latest) && IsWindow(r) && Base(r) !in latest
    ensures Fresh(s, w, r)
  {
    assert (s + [r])[|s|] == r;
    forall i | 0 <= i < |s| ensures !Linked(s + [r], w, i, |s|) {
      assert (s + [r])[i] == s[i];
    }
  }

  /** The group an ERROR row goes to, or null. */
  method FindGroup(ghost s: seq<Row>, ghost home: seq<Fault>, row: Row, w: int,
                   byCall: map<string, Fault>, latest: map<string, Recent>) returns (group: Fault?)
    requires row.level == ERROR && Grouped(s, w, home) && Remembers(s, home, byCall, latest)
    ensures if group == null then Fresh(s, w, row) else group in home && HomeFor(s, w, home, row, group)
  {
    group := null;
    if row.call != "" {
      if CallKey(row) in byCall {
        CallHit(s, w, home, byCall, row);
        group := byCall[CallKey(row)];
      } else {
        CallMiss(s, w, home, byCall, row);
      }
    } else if Base(row) in latest {
      var previous := latest[Base(row)];
      ghost var p :| LastOf(s, Base(row), p) && previous == Recent(home[p], Ts(s[p]));
      WindowHit(s, w, home, row, p);
      if Ts(row) > 0 && previous.lastTs > 0 && Ts(row) - previous.lastTs <= w {
        group := previous.group;
      }
    } else {
      WindowMiss(s, w, home, byCall, latest, row);
    }
  }

  predicate IsFault(f: Fault) { f.level == ERROR }

  predicate IsWarning(f: Fault) { f.level == WARN }

  predicate WarnRow(r: Row) { r.level == WARN }

  /** Row r opens a new fault after the rows of s. */
  ghost predicate Opens(s: seq<Row>, w: int, r: Row) { r.level == ERROR && Fresh(s, w, r) }

  lemma NewHome(s: seq<Row>, w: int, home: seq<Fault>, output: seq<Fault>, r: Row, h: Fault)
    requires Grouped(s, w, home) && (forall i :: 0 <= i < |s| ==> home[i] in output) && h !in output
    requires Fresh(s, w, r)
    ensures HomeFor(s, w, home, r, h)
  {
  }

  lemma PlainIsFresh(s: seq<Row>, w: int, r: Row)
    requires r.level != ERROR
    ensures Fresh(s, w, r)
  {
    assert (s + [r])[|s|] == r;
  }

  /** Filing row r under h keeps every collection right... */
  lemma FiledInto(s: seq<Row>, home: seq<Fault>, r: Row, h: Fault, rows: seq<Row>, face: Face)
    requires |home| == |s| && rows == Members(s, home, h)
    requires face == if rows == [] then Face(r, r.clock) else FaceOf(rows)
    requires h.rows == rows + [r] && h.face == TakeOver(face, r)
    ensures Collects(s + [r], home + [h], h)
  {
    MembersPrefix(s, home, r, h, h);
    assert (rows + [r])[..|rows|] == rows;
  }

  lemma FiledElsewhere(s: seq<Row>, home: seq<Fault>, r: Row, h: Fault, f: Fault)
    requires |home| == |s| && Collects(s, home, f) && f != h
    ensures Collects(s + [r], home + [h], f)
  {
    MembersPrefix(s, home, r, h, f);
  }

  /** ... and the output as a whole. */
  lemma Extended(s: seq<Row>, w: int, home: seq<Fault>, r: Row, h: Fault, output: seq<Fault>, output': seq<Fault>)
    requires Grouped(s, w, home) && HomeFor(s, w, home, r, h) && h.level == r.level
    requires Distinct(output) && forall i :: 0 <= i < |s| ==> home[i] in output && home[i].level == s[i].level
    requires if h in output then output' == output else output' == output + [h]
    requires Collects(s + [r], home + [h], h)
    requires forall f :: f in output && f != h ==> Collects(s, home, f)
    ensures Faithful(s + [r], w, home + [h], output')
  {
    GroupedStep(s, w, home, r, h);
    assert h in output' by { if h !in output { assert output'[|output|] == h; } }
    assert forall f :: f in output ==> f in output';
    forall f | f in output' ensures Collects(s + [r], home + [h], f) {
      if f != h { FiledElsewhere(s, home, r, h, f); }
    }
  }

  lemma CallsStep(s: seq<Row>, w: int, home: seq<Fault>, byCall: map<string, Fault>, r: Row, h: Fault)
    requires Grouped(s, w, home) && RemembersCalls(s, home, byCall) && HomeFor(s, w, home, r, h)
    ensures RemembersCalls(s + [r], home + [h], if IsCall(r) then byCall[CallKey(r) := h] else byCall)
  {
    var t, g := s + [r], home + [h];
    assert t[|s|] == r && g[|s|] == h;
    var byCall' := if IsCall(r) then byCall[CallKey(r) := h] else byCall;
    forall i | 0 <= i < |t| && IsCall(t[i]) ensures CallKey(t[i]) in byCall' && byCall'[CallKey(t[i])] == g[i] {
      if i < |s| && IsCall(r) && CallKey(r) == CallKey(t[i]) {
        assert Linked(t, w, i, |s|);
      }
    }
    forall k | k in byCall' ensures exists i :: 0 <= i < |t| && IsCall(t[i]) && CallKey(t[i]) == k {
      if k in byCall {
        var i :| 0 <= i < |s| && IsCall(s[i]) && CallKey(s[i]) == k;
        assert t[i] == s[i];
      } else {
        assert IsCall(t[|s|]);
      }
    }
  }

  lemma LastOfStep(s: seq<Row>, r: Row, b: string, i: int)
    ensures LastOf(s, b, i) && !(IsWindow(r) && b == Base(r)) ==> LastOf(s + [r], b, i)
    ensures IsWindow(r) ==> LastOf(s + [r], Base(r), |s|)
  {
  }

  lemma WindowsStep(s: seq<Row>, home: seq<Fault>, latest: map<string, Recent>, r: Row, h: Fault)
    requires |home| == |s| && RemembersWindows(s, home, latest)
    ensures RemembersWindows(s + [r], home + [h], if IsWindow(r) then latest[Base(r) := Recent(h, Ts(r))] else latest)
  {
    var t, g := s + [r], home + [h];
    var latest' := if IsWindow(r) then latest[Base(r) := Recent(h, Ts(r))] else latest;
    forall b | b in latest' ensures exists i :: LastOf(t, b, i) && latest'[b] == Recent(g[i], Ts(t[i])) {
      if IsWindow(r) && b == Base(r) {
        LastOfStep(s, r, b, |s|);
      } else {
        var i :| LastOf(s, b, i) && latest[b] == Recent(home[i], Ts(s[i]));
        LastOfStep(s, r, b, i);
        assert g[i] == home[i] && t[i] == s[i];
      }
    }
  }

  /** The group of a row: the one found, or a new empty one at the end of the output. */
  method FindOrOpen(ghost s: seq<Row>, ghost home: seq<Fault>, row: Row, w: int, output: seq<Fault>,
                    byCall: map<string, Fault>, latest: map<string, Recent>)
    returns (group: Fault, output': seq<Fault>)
    requires Faithful(s, w, home, output) && Remembers(s, home, byCall, latest)
    ensures HomeFor(s, w, home, row, group) && group.level == row.level
    ensures if Fresh(s, w, row) then fresh(group) && output' == output + [group]
            else group in output && output' == output
    ensures group.rows == Members(s, home, group)
    ensures group.face == if group.rows == [] then Face(row, row.clock) else FaceOf(group.rows)
  {
    var found: Fault? := null;
    if row.level == ERROR {
      found := FindGroup(s, home, row, w, byCall, latest);
    } else {
      PlainIsFresh(s, w, row);
    }
    if found == null {
      var key := if row.level != ERROR then "" else if row.call != "" then CallKey(row)
                 else Base(row) + ":" + Dec(Ts(row));
      group := new Fault(key, row);
      NewHome(s, w, home, output, row, group);
      MembersIn(s, home, group);
      output' := output + [group];
    } else {
      group := found;
      HitIsNotFresh(s, w, home, row, group);
      output' := output;
    }
  }

  /** The loop body of the clusterer. */
  method PlaceRow(ghost s: seq<Row>, ghost home: seq<Fault>, row: Row, w: int, output: seq<Fault>,
                  byCall: map<string, Fault>, latest: map<string, Recent>)
    returns (output': seq<Fault>, byCall': map<string, Fault>, latest': map<string, Recent>, ghost h: Fault)
    requires Faithful(s, w, home, output) && Remembers(s, home, byCall, latest)
    requires forall q :: q in s ==> Ts(q) <= Ts(row)
    modifies output
    ensures Faithful(s + [row], w, home + [h], output')
    ensures Remembers(s + [row], home + [h], byCall', latest')
    ensures output' == if Fresh(s, w, row) then output + [h] else output
    ensures Fresh(s, w, row) ==> fresh(h)
    ensures Tallied(s, w, output) ==> Tallied(s + [row], w, output')
  {
    var group;
    group, output' := FindOrOpen(s, home, row, w, output, byCall, latest);
    h := group;
    ghost var rows, face := group.rows, group.face;
    group.Absorb(row);
    FiledInto(s, home, row, h, rows, face);
    Extended(s, w, home, row, h, output, output');
    byCall', latest' := byCall, latest;
    if row.level == ERROR && row.call != "" {
      byCall' := byCall'[CallKey(row) := group];
    }
    if row.level == ERROR && row.call == "" {
      latest' := latest'[Base(row) := Recent(group, Ts(row))];
    }
    CallsStep(s, w, home, byCall, row, h);
    WindowsStep(s, home, latest, row, h);
    CountPlaced(s, w, row, output, output', h);
  }

  lemma HitIsNotFresh(s: seq<Row>, w: int, home: seq<Fault>, r: Row, h: Fault)
    requires |home| == |s| && HomeFor(s, w, home, r, h) && h in home
    ensures !Fresh(s, w, r)
  {
    var i :| 0 <= i < |home| && home[i] == h;
    assert Linked(s + [r], w, i, |s|);
  }

  /** The streaming pass over the sorted rows. */
  method Cluster(s: seq<Row>, w: int) returns (output: seq<Fault>, ghost home: seq<Fault>)
    requires Ascending(s, Time)
    ensures Faithful(s, w, home, output) && fresh(output) && Tallied(s, w, output)
  {
    output, home := [], [];
    var byCall: map<string, Fault> := map[];
    var latest: map<string, Recent> := map[];
    for n := 0 to |s|
      invariant Faithful(s[..n], w, home, output) && fresh(output)
      invariant Remembers(s[..n], home, byCall, latest) && Tallied(s[..n], w, output)
    {
      PrefixStep(s, n);
      ghost var h;
      output, byCall, latest, h := PlaceRow(s[..n], home, s[n], w, output, byCall, latest);
      home := home + [h];
    }
    assert s[..|s|] == s;
  }

  /** How many rows open a fault. */
  ghost function Openings(s: seq<Row>, w: int): nat {
    if s == [] then 0
    else Openings(s[..|s| - 1], w) + if Opens(s[..|s| - 1], w, s[|s| - 1]) then 1 else 0
  }

  /** One ERROR group for every opening row, one WARN group for every WARN row. */
  ghost predicate Tallied(s: seq<Row>, w: int, output: seq<Fault>) {
    Count(output, IsFault) == Openings(s, w) && Count(output, IsWarning) == Count(s, WarnRow)
  }

  lemma PrefixStep(s: seq<Row>, n: nat)
    requires Ascending(s, Time) && n < |s|
    ensures s[..n] + [s[n]] == s[..n + 1] && forall q :: q in s[..n] ==> Ts(q) <= Ts(s[n])
  {
    forall q | q in s[..n] ensures Ts(q) <= Ts(s[n]) {
      var i :| 0 <= i < n && s[i] == q;
      assert Time(s[i]) <= Time(s[n]);
    }
  }

  lemma CountPlaced(s: seq<Row>, w: int, r: Row, before: seq<Fault>, after: seq<Fault>, h: Fault)
    requires after == (if Fresh(s, w, r) then before + [h] else before) && h.level == r.level
    ensures Tallied(s, w, before) ==> Tallied(s + [r], w, after)
  {
    assert (s + [r])[..|s|] == s;
    CountPush(before, after, h, Fresh(s, w, r), IsFault);
    CountPush(before, after, h, Fresh(s, w, r), IsWarning);
    if WarnRow(r) { PlainIsFresh(s, w, r); }
  }

  lemma CountPush(before: seq<Fault>, after: seq<Fault>, h: Fault, pushed: bool, p: Fault -> bool)
    requires after == if pushed then before + [h] else before
    ensures Count(after, p) == Count(before, p) + if pushed && p(h) then 1 else 0
    ensures forall f :: f in after <==> f in before || (pushed && f == h)
  {
    if pushed { assert after[..|after| - 1] == before; }
  }

  // ----- how many faults: a count on the unordered input

  predicate Untimed(r: Row) { IsWindow(r) && Ts(r) == 0 }

  function Calls(rows: seq<Row>): set<string> {
    set r | r in rows && IsCall(r) :: CallKey(r)
  }

  /** q comes shortly before r: strictly earlier, by at most w. */
  predicate ShortlyBefore(q: Row, r: Row, w: int) {
    IsWindow(q) && Base(q) == Base(r) && 0 < Ts(q) < Ts(r) && Ts(r) - Ts(q) <= w
  }

  predicate IsStart(rows: seq<Row>, w: int, r: Row) {
    IsWindow(r) && Ts(r) > 0 && forall q :: q in rows ==> !ShortlyBefore(q, r, w)
  }

  /** The instants at which a window fault starts. */
  function Starts(rows: seq<Row>, w: int): set<(string, nat)> {
    set r | r in rows && IsStart(rows, w, r) :: (Base(r), Ts(r))
  }

  function FaultCount(rows: seq<Row>, w: int): nat {
    |Calls(rows)| + if w < 0 then Count(rows, IsWindow) else Count(rows, Untimed) + |Starts(rows, w)|
  }

  lemma CallsGrow(s: seq<Row>, w: int, r: Row)
    ensures Calls(s + [r]) == Calls(s) + if IsCall(r) then {CallKey(r)} else {}
    ensures IsCall(r) ==> (Fresh(s, w, r) <==> CallKey(r) !in Calls(s))
  {
    var t := s + [r];
    assert t[|s|] == r;
    assert forall q :: q in t <==> q in s || q == r;
    if IsCall(r) {
      forall i | 0 <= i < |s| ensures Linked(t, w, i, |s|) <==> IsCall(s[i]) && CallKey(s[i]) == CallKey(r) {
        CallLinked(s, w, r, i);
      }
      if CallKey(r) in Calls(s) {
        var q :| q in s && IsCall(q) && CallKey(q) == CallKey(r);
        var i :| 0 <= i < |s| && s[i] == q;
        assert Linked(t, w, i, |s|);
      }
    }
  }

  lemma StartsOld(s: seq<Row>, w: int, r: Row, q: Row)
    requires q in s && forall p :: p in s ==> Ts(p) <= Ts(r)
    ensures IsStart(s + [r], w, q) <==> IsStart(s, w, q)
  {
    assert forall p :: p in s + [r] <==> p in s || p == r;
  }

  lemma StartsGrow(s: seq<Row>, w: int, r: Row)
    requires forall q :: q in s ==> Ts(q) <= Ts(r)
    ensures Starts(s + [r], w) == Starts(s, w) + if IsStart(s, w, r) then {(Base(r), Ts(r))} else {}
  {
    var t := s + [r];
    assert t[|s|] == r;
    assert forall q :: q in t <==> q in s || q == r;
    assert IsStart(t, w, r) <==> IsStart(s, w, r);
    forall q | q in s ensures IsStart(t, w, q) <==> IsStart(s, w, q) {
      StartsOld(s, w, r, q);
    }
  }

  predicate HasBase(r: Row, b: string) { IsWindow(r) && Base(r) == b }

  /** The last row with base b among the first n. */
  lemma {:induction false} FindLast(s: seq<Row>, b: string, n: nat) returns (p: int)
    requires n <= |s|
    ensures p < n && (p >= 0 ==> HasBase(s[p], b))
    ensures forall m :: 0 <= m < n && p < m ==> !HasBase(s[m], b)
  {
    if n == 0 || HasBase(s[n - 1], b) {
      p := n - 1;
    } else {
      p := FindLast(s, b, n - 1);
    }
  }

  lemma FoundLast(s: seq<Row>, b: string) returns (p: int)
    ensures p >= 0 ==> LastOf(s, b, p)
    ensures p < 0 ==> forall i :: 0 <= i < |s| && IsWindow(s[i]) ==> Base(s[i]) != b
  {
    p := FindLast(s, b, |s|);
    assert forall m :: 0 <= m < |s| && p < m ==> !HasBase(s[m], b);
  }

  lemma NoneFresh(s: seq<Row>, w: int, r: Row)
    requires IsWindow(r) && forall i :: 0 <= i < |s| && IsWindow(s[i]) ==> Base(s[i]) != Base(r)
    ensures Fresh(s, w, r)
  {
    assert (s + [r])[|s|] == r;
    forall i | 0 <= i < |s| ensures !Linked(s + [r], w, i, |s|) {
      assert (s + [r])[i] == s[i];
    }
  }

  lemma CloseLinked(s: seq<Row>, w: int, r: Row, p: nat)
    requires IsWindow(r) && LastOf(s, Base(r), p)
    ensures Fresh(s, w, r) <==> !(Ts(r) > 0 && Ts(s[p]) > 0 && Ts(r) - Ts(s[p]) <= w)
  {
    var t := s + [r];
    LastPrecedes(s, r, p);
    assert t[|s|] == r && t[p] == s[p];
    assert Joins(t, w, |s|) <==> Ts(r) > 0 && Ts(s[p]) > 0 && Ts(r) - Ts(s[p]) <= w;
    forall i | 0 <= i < |s| ensures Linked(t, w, i, |s|) ==> Joins(t, w, |s|) {
      LinkedThroughLast(t, w, p, i, |s|);
    }
    LinkedThroughLast(t, w, p, p, |s|);
  }

  lemma SameBaseEarlier(s: seq<Row>, b: string, p: nat, q: Row)
    requires Ascending(s, Time) && LastOf(s, b, p) && q in s && IsWindow(q) && Base(q) == b
    ensures Ts(q) <= Ts(s[p])
  {
    var i :| 0 <= i < |s| && s[i] == q;
    if i < p { assert Time(s[i]) <= Time(s[p]); }
  }

  /** A timed window row opens a fault exactly when its instant is a new start. */
  lemma WindowOpens(s: seq<Row>, w: int, r: Row)
    requires Ascending(s, Time) && w >= 0 && IsWindow(r) && Ts(r) > 0
    requires forall q :: q in s ==> Ts(q) <= Ts(r)
    ensures Fresh(s, w, r) <==> IsStart(s, w, r) && (Base(r), Ts(r)) !in Starts(s, w)
  {
    var p := FoundLast(s, Base(r));
    if p < 0 {
      NoneFresh(s, w, r);
      forall q | q in s ensures !(IsWindow(q) && Base(q) == Base(r)) {
        var i :| 0 <= i < |s| && s[i] == q;
      }
    } else {
      CloseLinked(s, w, r, p);
      forall q | q in s && IsWindow(q) && Base(q) == Base(r) ensures Ts(q) <= Ts(s[p]) {
        SameBaseEarlier(s, Base(r), p, q);
      }
      assert s[p] in s;
      if Ts(s[p]) == Ts(r) && IsStart(s, w, r) {
        assert IsStart(s, w, s[p]);
      }
    }
  }

  lemma CountSnoc(s: seq<Row>, r: Row, f: Row -> bool)
    ensures Count(s + [r], f) == Count(s, f) + if f(r) then 1 else 0
  {
    assert (s + [r])[..|s|] == s;
  }

  lemma AddOne<T>(a: set<T>, x: T, c: bool)
    ensures |a + if c then {x} else {}| == |a| + if c && x !in a then 1 else 0
  {
    if !c || x in a { assert a + (if c then {x} else {}) == a; }
  }

  lemma FaultCountStep(s: seq<Row>, w: int, r: Row)
    requires Ascending(s, Time) && forall q :: q in s ==> Ts(q) <= Ts(r)
    ensures FaultCount(s + [r], w) == FaultCount(s, w) + if Opens(s, w, r) then 1 else 0
  {
    CallCountStep(s, w, r);
    CountSnoc(s, r, IsWindow);
    CountSnoc(s, r, Untimed);
    StartCountStep(s, w, r);
    if IsWindow(r) && (w < 0 || Ts(r) == 0) {
      LateOrUntimed(s, w, r);
    }
  }

  lemma CallCountStep(s: seq<Row>, w: int, r: Row)
    ensures |Calls(s + [r])| == |Calls(s)| + if IsCall(r) && Fresh(s, w, r) then 1 else 0
  {
    CallsGrow(s, w, r);
    AddOne(Calls(s), CallKey(r), IsCall(r));
  }

  lemma StartCountStep(s: seq<Row>, w: int, r: Row)
    requires Ascending(s, Time) && forall q :: q in s ==> Ts(q) <= Ts(r)
    ensures w >= 0 ==>
      |Starts(s + [r], w)| == |Starts(s, w)| + if IsWindow(r) && Ts(r) > 0 && Fresh(s, w, r) then 1 else 0
  {
    StartsGrow(s, w, r);
    AddOne(Starts(s, w), (Base(r), Ts(r)), IsStart(s, w, r));
    if w >= 0 && IsWindow(r) && Ts(r) > 0 {
      WindowOpens(s, w, r);
    }
  }

  lemma LateOrUntimed(s: seq<Row>, w: int, r: Row)
    requires IsWindow(r) && (w < 0 || Ts(r) == 0) && forall q :: q in s ==> Ts(q) <= Ts(r)
    ensures Fresh(s, w, r)
  {
    var p := FoundLast(s, Base(r));
    if p < 0 {
      NoneFresh(s, w, r);
    } else {
      CloseLinked(s, w, r, p);
      assert s[p] in s;
    }
  }

  lemma {:induction false} OpeningsCount(s: seq<Row>, w: int)
    requires Ascending(s, Time)
    ensures Openings(s, w) == FaultCount(s, w)
  {
    if s == [] {
      assert Calls(s) == {} && Starts(s, w) == {};
    } else {
      var t, r := s[..|s| - 1], s[|s| - 1];
      assert s == t + [r];
      PrefixStep(s, |t|);
      OpeningsCount(t, w);
      FaultCountStep(t, w, r);
    }
  }

  /** The number of faults does not depend on the order of the rows. */
  lemma FaultCountPermuted(a: seq<Row>, b: seq<Row>, w: int)
    requires multiset(a) == multiset(b)
    ensures FaultCount(a, w) == FaultCount(b, w)
  {
    SameLength(a, b);
    CountPermuted(a, b, IsWindow);
    CountPermuted(a, b, Untimed);
    assert Calls(a) == Calls(b);
    assert forall r :: IsStart(a, w, r) <==> IsStart(b, w, r);
    assert Starts(a, w) == Starts(b, w);
  }

  predicate Timed(r: Row) { IsWindow(r) && Ts(r) > 0 }

  function Instants(rows: seq<Row>): set<(string, nat)> {
    set r | r in rows && Timed(r) :: (Base(r), Ts(r))
  }

  lemma InstantsGrow(s: seq<Row>, r: Row)
    ensures Instants(s + [r]) == Instants(s) + if Timed(r) then {(Base(r), Ts(r))} else {}
  {
    assert (s + [r])[|s|] == r;
    assert forall q :: q in s + [r] <==> q in s || q == r;
  }

  lemma {:induction false} InstantsBounded(rows: seq<Row>)
    ensures |Instants(rows)| <= Count(rows, Timed)
  {
    if rows != [] {
      var s, r := rows[..|rows| - 1], rows[|rows| - 1];
      assert rows == s + [r];
      InstantsBounded(s);
      InstantsGrow(s, r);
      CountSnoc(s, r, Timed);
      AddOne(Instants(s), (Base(r), Ts(r)), Timed(r));
    }
  }

  lemma {:induction false} TimedOrNot(rows: seq<Row>)
    ensures Count(rows, Timed) + Count(rows, Untimed) == Count(rows, IsWindow)
  {
    if rows != [] {
      TimedOrNot(rows[..|rows| - 1]);
    }
  }

  lemma {:induction false} SubsetSize<T>(a: set<T>, b: set<T>)
    requires a <= b
    ensures |a| <= |b|
  {
    if a != {} {
      var x :| x in a;
      SubsetSize(a - {x}, b - {x});
    }
  }

  /** A wider window never yields more faults. */
  lemma WiderWindow(rows: seq<Row>, w: int, v: int)
    requires w <= v
    ensures FaultCount(rows, v) <= FaultCount(rows, w)
  {
    if v >= 0 {
      assert Starts(rows, v) <= Instants(rows);
      SubsetSize(Starts(rows, v), Instants(rows));
      InstantsBounded(rows);
      TimedOrNot(rows);
      if w >= 0 {
        assert Starts(rows, v) <= Starts(rows, w) by {
          forall r | IsStart(rows, v, r) ensures IsStart(rows, w, r) {
            forall q | q in rows ensures !ShortlyBefore(q, r, w) {
              assert !ShortlyBefore(q, r, v);
            }
          }
        }
        SubsetSize(Starts(rows, v), Starts(rows, w));
      }
    }
  }

  /** Number(options.windowMs) || DEFAULT: a missing or zero window means the default. */
  function EffectiveWindow(option: Option<int>): int {
    match option
    case None => DEFAULT_FAILURE_WINDOW_MS
    case Some(w) => if w == 0 then DEFAULT_FAILURE_WINDOW_MS else w
  }

  function Sample(ts: nat): Row { Row(ERROR, "", "", "", "", "E", "", Clock(Absent, Some(ts), None), "") }

  lemma SampleStarts(w: int, a: Row, b: Row)
    requires 0 <= w && a == Sample(1) && b == Sample(30001)
    ensures Starts([a, b], w) == {(Base(a), 1)} + if w >= 30000 then {} else {(Base(b), 30001)}
  {
    var rows := [a, b];
    assert a in rows && b in rows;
    assert Base(a) == Base(b);
    assert IsStart(rows, w, a);
    assert ShortlyBefore(a, b, w) <==> w >= 30000;
    assert IsStart(rows, w, b) <==> w < 30000;
  }

  lemma SampleUntimed(a: Row, b: Row)
    requires a == Sample(1) && b == Sample(30001)
    ensures Count([a, b], Untimed) == 0 && Calls([a, b]) == {}
  {
    CountSnoc([a], b, Untimed);
    CountSnoc([], a, Untimed);
    assert [a, b] == [a] + [b] && [a] == [] + [a];
  }

  lemma TwoSamples(w: int)
    requires 0 <= w
    ensures FaultCount([Sample(1), Sample(30001)], w) == if w >= 30000 then 1 else 2
  {
    var a, b := Sample(1), Sample(30001);
    SampleStarts(w, a, b);
    SampleUntimed(a, b);
    assert (Base(a), 1) != (Base(b), 30001);
  }

  /** Raising the option never raises the count, except from zero to less than the default. */
  lemma OptionMonotone(w: int, v: int)
    requires w <= v
    ensures (forall rows :: FaultCount(rows, EffectiveWindow(Some(v))) <= FaultCount(rows, EffectiveWindow(Some(w))))
       <==> (w != 0 || v == 0 || v >= DEFAULT_FAILURE_WINDOW_MS)
  {
    if w != 0 || v == 0 || v >= DEFAULT_FAILURE_WINDOW_MS {
      forall rows ensures FaultCount(rows, EffectiveWindow(Some(v))) <= FaultCount(rows, EffectiveWindow(Some(w))) {
        WiderWindow(rows, EffectiveWindow(Some(w)), EffectiveWindow(Some(v)));
      }
    } else {
      TwoSamples(v);
      TwoSamples(DEFAULT_FAILURE_WINDOW_MS);
      assert FaultCount([Sample(1), Sample(30001)], EffectiveWindow(Some(v))) == 2;
    }
  }

  // ----- no row is lost or counted twice

  ghost function Gathered(s: seq<Row>, home: seq<Fault>, fs: seq<Fault>): multiset<Row>
    requires |home| == |s|
  {
    if fs == [] then multiset{}
    else Gathered(s, home, fs[..|fs| - 1]) + multiset(Members(s, home, fs[|fs| - 1]))
  }

  lemma {:induction false} GatherStep(s: seq<Row>, home: seq<Fault>, r: Row, h: Fault, fs: seq<Fault>)
    requires |home| == |s| && Distinct(fs)
    ensures Gathered(s + [r], home + [h], fs) == Gathered(s, home, fs) + if h in fs then multiset{r} else multiset{}
  {
    if fs != [] {
      var rest, last := fs[..|fs| - 1], fs[|fs| - 1];
      assert fs == rest + [last] && last !in rest;
      GatherStep(s, home, r, h, rest);
      MembersPrefix(s, home, r, h, last);
    }
  }

  lemma {:induction false} GatherNothing(fs: seq<Fault>)
    ensures Gathered([], [], fs) == multiset{}
  {
    if fs != [] { GatherNothing(fs[..|fs| - 1]); }
  }

  lemma GatherSnoc(s: seq<Row>, home: seq<Fault>, fs: seq<Fault>, r: Row, h: Fault)
    requires |s| == |home| && Distinct(fs) && h in fs && Gathered(s, home, fs) == multiset(s)
    ensures Gathered(s + [r], home + [h], fs) == multiset(s + [r])
  {
    GatherStep(s, home, r, h, fs);
  }

  ghost predicate AllIn(home: seq<Fault>, fs: seq<Fault>) { forall h :: h in home ==> h in fs }

  lemma {:induction false} GatheredAll(s: seq<Row>, home: seq<Fault>, fs: seq<Fault>)
    requires |home| == |s| && Distinct(fs) && AllIn(home, fs)
    ensures Gathered(s, home, fs) == multiset(s)
  {
    if s == [] {
      GatherNothing(fs);
    } else {
      var t, g, r, h := s[..|s| - 1], home[..|s| - 1], s[|s| - 1], home[|s| - 1];
      assert AllIn(g, fs) && h in fs;
      GatheredAll(t, g, fs);
      GatherSnoc(t, g, fs, r, h);
      assert t + [r] == s && g + [h] == home;
    }
  }

  /** All raw events of a list of groups. */
  ghost function RawEvents(fs: seq<Fault>): multiset<Row>
    reads set f | f in fs
  {
    if fs == [] then multiset{} else RawEvents(fs[..|fs| - 1]) + multiset(fs[|fs| - 1].rows)
  }

  lemma {:induction false} RawEventsGathered(s: seq<Row>, home: seq<Fault>, fs: seq<Fault>)
    requires |home| == |s| && forall f :: f in fs ==> f.rows == Members(s, home, f)
    ensures RawEvents(fs) == Gathered(s, home, fs)
  {
    if fs != [] {
      assert fs == fs[..|fs| - 1] + [fs[|fs| - 1]];
      RawEventsGathered(s, home, fs[..|fs| - 1]);
    }
  }

  ghost predicate NewestFirst(fs: seq<Fault>)
    reads set f | f in fs
  {
    forall i, j :: 0 <= i < j < |fs| ==> Recorded(fs[i]) >= Recorded(fs[j])
  }

  /** The final sort of the output. */
  method SortNewestFirst(fs: seq<Fault>) returns (r: seq<Fault>)
    requires Distinct(fs)
    ensures multiset(r) == multiset(fs) && NewestFirst(r) && Distinct(r)
  {
    r := [];
    for k := 0 to |fs|
      invariant multiset(r) == multiset(fs[..k]) && NewestFirst(r) && Distinct(r)
    {
      NotYet(fs, k, r);
      r := InsertNewest(r, fs[k]);
    }
    assert fs[..|fs|] == fs;
  }

  lemma NotYet(fs: seq<Fault>, k: nat, r: seq<Fault>)
    requires k < |fs| && Distinct(fs) && multiset(r) == multiset(fs[..k])
    ensures fs[k] !in r && multiset(fs[..k + 1]) == multiset(fs[..k]) + multiset{fs[k]}
  {
    SameLength(r, fs[..k]);
    assert fs[..k + 1] == fs[..k] + [fs[k]];
  }

  method InsertNewest(r: seq<Fault>, f: Fault) returns (r': seq<Fault>)
    requires NewestFirst(r) && Distinct(r) && f !in r
    ensures multiset(r') == multiset(r) + multiset{f} && NewestFirst(r') && Distinct(r')
  {
    var pos := PlaceFor(r, f);
    InsertedAt(r, pos, f);
    r' := r[..pos] + [f] + r[pos..];
  }

  method PlaceFor(r: seq<Fault>, f: Fault) returns (pos: nat)
    requires NewestFirst(r)
    ensures pos <= |r| && NewestFirst(r[..pos] + [f] + r[pos..])
  {
    pos := |r|;
    while pos > 0 && Recorded(r[pos - 1]) < Recorded(f)
      invariant 0 <= pos <= |r|
      invariant forall j :: pos <= j < |r| ==> Recorded(r[j]) < Recorded(f)
    {
      pos := pos - 1;
    }
    assert forall j :: 0 <= j < pos ==> Recorded(r[j]) >= Recorded(r[pos - 1]) >= Recorded(f);
  }

  lemma InsertedAt(r: seq<Fault>, pos: nat, f: Fault)
    requires pos <= |r| && Distinct(r) && f !in r
    ensures Distinct(r[..pos] + [f] + r[pos..])
    ensures multiset(r[..pos] + [f] + r[pos..]) == multiset(r) + multiset{f}
  {
    assert r == r[..pos] + r[pos..];
  }

  // ----- when a group sorts by its latest row

  /** What d has to bring along so that c, overwritten by d, shows d's time: a flag that resets one that is set,
      a ts that replaces an older one, and, if d's time is unknown, nothing that uncovers a time behind a flag. */
  predicate Passes(c: Clock, d: Clock) {
    if Known(d) > 0 then
      && (c.legacy == On ==> d.legacy != Absent)
      && (d.ts.None? && c.ts.Some? && c.ts.value > 0 ==> c.ts.value == Known(d))
    else
      c.legacy == On && d.legacy == Off ==>
        (d.ts.Some? || c.ts.None? || c.ts.value == 0) && (d.at.Some? || c.at.None? || c.at.value == 0)
  }

  /** A row that is not older than what a group shows becomes its time exactly when it passes. */
  lemma MergeTellsIff(c: Clock, d: Clock)
    requires Known(c) <= Known(d)
    ensures Known(Merge(c, d)) == Known(d) <==> Passes(c, d)
  {
  }

  /** The last row is not older than what the earlier ones left, and passes over it. */
  predicate LastPasses(rows: seq<Row>)
    requires rows != []
  {
    |rows| == 1 ||
      var c, d := FaceOf(rows[..|rows| - 1]).clock, rows[|rows| - 1].clock;
      Known(c) <= Known(d) && Passes(c, d)
  }

  /** A group ends up showing the time of its latest row exactly when that row passes. */
  lemma ShowsLatestIff(rows: seq<Row>)
    requires rows != []
    ensures Known(FaceOf(rows).clock) == Ts(rows[|rows| - 1]) <==> LastPasses(rows)
  {
    if |rows| > 1 {
      var c, d := FaceOf(rows[..|rows| - 1]).clock, rows[|rows| - 1].clock;
      if Known(c) <= Known(d) { MergeTellsIff(c, d); }
    }
  }

  predicate Unflagged(rows: seq<Row>) { forall i :: 0 <= i < |rows| ==> rows[i].clock.legacy != On }

  /** The ts of the last row that has one. */
  function LastStamp(rows: seq<Row>): Option<nat> {
    if rows == [] then None
    else if rows[|rows| - 1].clock.ts.Some? then rows[|rows| - 1].clock.ts
    else LastStamp(rows[..|rows| - 1])
  }

  /** Without flags every row is taken over, and nothing newer than the latest row is shown. */
  lemma {:induction false} UnflaggedFace(rows: seq<Row>)
    requires rows != [] && Ascending(rows, Time) && Unflagged(rows)
    ensures
      var c, d := FaceOf(rows).clock, rows[|rows| - 1].clock;
      && c.legacy != On && c.ts == LastStamp(rows) && Known(c) <= Known(d)
      && (d.at.Some? ==> c.at == d.at)
  {
    var rest, last := rows[..|rows| - 1], rows[|rows| - 1];
    if rest == [] {
      assert LastStamp(rest) == None;
    } else {
      assert rest[|rest| - 1] == rows[|rows| - 2];
      assert Time(rest[|rest| - 1]) <= Time(last);
      UnflaggedFace(rest);
    }
  }

  /** A group without flags ends up showing the time of its latest row exactly when no row has a usable ts, or the
      last ts there is is that time: a later row without ts hides behind an older one with it. */
  lemma UnflaggedShowsIff(rows: seq<Row>)
    requires rows != [] && Ascending(rows, Time) && Unflagged(rows)
    ensures Known(FaceOf(rows).clock) == Ts(rows[|rows| - 1]) <==>
      LastStamp(rows) == None || LastStamp(rows).value in {0, Ts(rows[|rows| - 1])}
  {
    UnflaggedFace(rows);
  }

  /** Each row passes over what the earlier ones left. */
  ghost predicate AllPass(rows: seq<Row>) {
    forall n :: 1 <= n < |rows| ==> Passes(FaceOf(rows[..n]).clock, rows[n].clock)
  }

  /** After each row the group shows that row's time. */
  ghost predicate AlwaysTells(rows: seq<Row>) {
    forall n :: 1 <= n <= |rows| ==> Known(FaceOf(rows[..n]).clock) == Ts(rows[n - 1])
  }

  lemma FaceNext(rows: seq<Row>, n: nat)
    requires 1 <= n < |rows|
    ensures FaceOf(rows[..n + 1]) == TakeOver(FaceOf(rows[..n]), rows[n])
  {
    assert rows[..n + 1][..n] == rows[..n];
  }

  lemma {:induction false} PassingTells(rows: seq<Row>, n: nat)
    requires Ascending(rows, Time) && AllPass(rows) && 1 <= n <= |rows|
    ensures Known(FaceOf(rows[..n]).clock) == Ts(rows[n - 1])
  {
    if n > 1 {
      PassingTells(rows, n - 1);
      FaceNext(rows, n - 1);
      assert Time(rows[n - 2]) <= Time(rows[n - 1]);
      MergeTellsIff(FaceOf(rows[..n - 1]).clock, rows[n - 1].clock);
    }
  }

  /** If each row passes, the last one does. */
  lemma AllPassEnds(rows: seq<Row>)
    requires Ascending(rows, Time) && AllPass(rows) && rows != []
    ensures LastPasses(rows)
  {
    PassingTells(rows, |rows|);
    assert rows[..|rows|] == rows;
    ShowsLatestIff(rows);
  }

  /** A group shows the time of its latest row after every single row exactly when all its rows pass. */
  lemma TellsIff(rows: seq<Row>)
    requires Ascending(rows, Time)
    ensures AlwaysTells(rows) <==> AllPass(rows)
  {
    if AllPass(rows) {
      forall n | 1 <= n <= |rows| ensures Known(FaceOf(rows[..n]).clock) == Ts(rows[n - 1]) {
        PassingTells(rows, n);
      }
    }
    if AlwaysTells(rows) {
      forall n | 1 <= n < |rows| ensures Passes(FaceOf(rows[..n]).clock, rows[n].clock) {
        FaceNext(rows, n);
        assert Known(FaceOf(rows[..n]).clock) == Ts(rows[n - 1]) && Time(rows[n - 1]) <= Time(rows[n]);
        assert Known(FaceOf(rows[..n + 1]).clock) == Ts(rows[n + 1 - 1]);
        MergeTellsIff(FaceOf(rows[..n]).clock, rows[n].clock);
      }
    }
  }

  /** The two rows have the same time properties. */
  predicate SameShape(c: Clock, d: Clock) {
    (c.legacy == Absent <==> d.legacy == Absent) && c.ts.Some? == d.ts.Some? && c.at.Some? == d.at.Some?
  }

  ghost predicate Uniform(rows: seq<Row>) { forall p, q :: p in rows && q in rows ==> SameShape(p.clock, q.clock) }

  lemma {:induction false} UniformFace(rows: seq<Row>, n: nat)
    requires Ascending(rows, Time) && Uniform(rows) && 1 <= n <= |rows|
    ensures FaceOf(rows[..n]).clock == rows[n - 1].clock
  {
    if n > 1 {
      UniformFace(rows, n - 1);
      FaceNext(rows, n - 1);
      assert Time(rows[n - 2]) <= Time(rows[n - 1]);
      assert SameShape(rows[n - 2].clock, rows[n - 1].clock);
    }
  }

  /** Rows that all have the same time properties pass. */
  lemma UniformPasses(rows: seq<Row>)
    requires Ascending(rows, Time) && Uniform(rows)
    ensures AllPass(rows)
  {
    forall n | 1 <= n < |rows| ensures Passes(FaceOf(rows[..n]).clock, rows[n].clock) {
      UniformFace(rows, n);
      assert SameShape(rows[n - 1].clock, rows[n].clock);
    }
  }

  /** Rows that mix properties need not: a flag set on the first row of a call survives a later row without one,
      and the group sorts as if its time were unknown. */
  lemma StaleFlag() returns (a: Row, b: Row)
    ensures IsCall(a) && IsCall(b) && CallKey(a) == CallKey(b) && Ts(a) < Ts(b)
    ensures !Passes(a.clock, b.clock) && Known(FaceOf([a, b]).clock) == 0
  {
    a := Row(ERROR, "", "", "", "c", "E", "", Clock(On, Some(1), None), "");
    b := Row(ERROR, "", "", "", "c", "E", "", Clock(Absent, Some(5000), None), "");
    assert [a, b][..1] == [a];
  }

  lemma {:induction false} MembersAscend(s: seq<Row>, home: seq<Fault>, f: Fault)
    requires |home| == |s| && Ascending(s, Time)
    ensures Ascending(Members(s, home, f), Time)
  {
    if s != [] {
      var n := |s| - 1;
      MembersAscend(s[..n], home[..n], f);
      MembersIn(s[..n], home[..n], f);
      forall r | r in Members(s[..n], home[..n], f) ensures Time(r) <= Time(s[n]) {
        var i :| 0 <= i < n && s[..n][i] == r;
        assert s[i] == r;
      }
    }
  }

  /** The time of the latest row of a group. */
  function Latest(f: Fault): nat
    requires f.rows != []
    reads f
  {
    Ts(f.rows[|f.rows| - 1])
  }

  /** The groups come newest first by their latest rows. */
  ghost predicate LatestFirst(fs: seq<Fault>)
    reads set f | f in fs
  {
    forall i, j :: 0 <= i < j < |fs| && fs[i].rows != [] && fs[j].rows != [] ==> Latest(fs[i]) >= Latest(fs[j])
  }

  lemma GroupTells(s: seq<Row>, home: seq<Fault>, f: Fault)
    requires |home| == |s| && Collects(s, home, f)
    ensures f.rows != [] && (Recorded(f) == Latest(f) <==> LastPasses(f.rows))
  {
    ShowsLatestIff(f.rows);
  }

  /** Every group sorts by its latest row exactly when that row passes. */
  ghost predicate TellExactly(fs: seq<Fault>)
    reads set f | f in fs
  {
    forall f :: f in fs ==> f.rows != [] && (Recorded(f) == Latest(f) <==> LastPasses(f.rows))
  }

  ghost predicate LastsPass(fs: seq<Fault>)
    reads set f | f in fs
  {
    forall f :: f in fs && f.rows != [] ==> LastPasses(f.rows)
  }

  lemma GroupsTell(s: seq<Row>, w: int, home: seq<Fault>, fs: seq<Fault>)
    requires Faithful(s, w, home, fs) && NewestFirst(fs)
    ensures TellExactly(fs) && (LastsPass(fs) ==> LatestFirst(fs))
  {
    forall f | f in fs ensures f.rows != [] && (Recorded(f) == Latest(f) <==> LastPasses(f.rows)) {
      GroupTells(s, home, f);
    }
  }

  lemma UniformGroups(s: seq<Row>, w: int, home: seq<Fault>, fs: seq<Fault>)
    requires Ascending(s, Time) && Faithful(s, w, home, fs) && Uniform(s)
    ensures LastsPass(fs)
  {
    forall f | f in fs ensures f.rows != [] ==> LastPasses(f.rows) {
      MembersAscend(s, home, f);
      MembersIn(s, home, f);
      UniformPasses(f.rows);
      if f.rows != [] { AllPassEnds(f.rows); }
    }
  }

  /** The whole aggregation: sort by time, cluster, newest first by the time each group shows. That is the time of
      its latest row exactly when that row passes, as it does when all rows have the same time properties. */
  method AggregateFailures(rows: seq<Row>, option: Option<int>) returns (faults: seq<Fault>, ghost home: seq<Fault>)
    ensures Faithful(SortBy(rows, Time), EffectiveWindow(option), home, faults) && NewestFirst(faults)
    ensures TellExactly(faults) && (LastsPass(faults) ==> LatestFirst(faults))
    ensures Uniform(rows) ==> LastsPass(faults)
    ensures RawEvents(faults) == multiset(rows)
    ensures Count(faults, IsFault) == FaultCount(rows, EffectiveWindow(option))
    ensures Count(faults, IsWarning) == Count(rows, WarnRow)
  {
    var w := EffectiveWindow(option);
    var sorted := SortBy(rows, Time);
    SortIsAscending(rows, Time);
    var output;
    output, home := Cluster(sorted, w);
    faults := SortNewestFirst(output);
    FaithfulReordered(sorted, w, home, output, faults);
    CountsKept(rows, sorted, w, output, faults);
    EventsKept(rows, sorted, w, home, faults);
    OrderKept(rows, sorted, w, home, faults);
  }

  lemma OrderKept(rows: seq<Row>, sorted: seq<Row>, w: int, home: seq<Fault>, faults: seq<Fault>)
    requires multiset(sorted) == multiset(rows) && Ascending(sorted, Time)
    requires Faithful(sorted, w, home, faults) && NewestFirst(faults)
    ensures TellExactly(faults) && (LastsPass(faults) ==> LatestFirst(faults))
    ensures Uniform(rows) ==> LastsPass(faults)
  {
    GroupsTell(sorted, w, home, faults);
    if Uniform(rows) {
      SameLength(sorted, rows);
      UniformGroups(sorted, w, home, faults);
    }
  }

  lemma FaithfulReordered(s: seq<Row>, w: int, home: seq<Fault>, output: seq<Fault>, faults: seq<Fault>)
    requires Faithful(s, w, home, output) && multiset(faults) == multiset(output) && Distinct(faults)
    ensures Faithful(s, w, home, faults)
  {
    SameLength(faults, output);
  }

  lemma CountsKept(rows: seq<Row>, sorted: seq<Row>, w: int, output: seq<Fault>, faults: seq<Fault>)
    requires multiset(sorted) == multiset(rows) && Ascending(sorted, Time)
    requires Tallied(sorted, w, output) && multiset(faults) == multiset(output)
    ensures Count(faults, IsFault) == FaultCount(rows, w) && Count(faults, IsWarning) == Count(rows, WarnRow)
  {
    OpeningsCount(sorted, w);
    FaultCountPermuted(sorted, rows, w);
    CountPermuted(sorted, rows, WarnRow);
    CountPermuted(faults, output, IsFault);
    CountPermuted(faults, output, IsWarning);
  }

  lemma EventsKept(rows: seq<Row>, sorted: seq<Row>, w: int, home: seq<Fault>, faults: seq<Fault>)
    requires multiset(sorted) == multiset(rows) && Faithful(sorted, w, home, faults)
    ensures RawEvents(faults) == multiset(rows)
  {
    RawEventsGathered(sorted, home, faults);
    GatheredAll(sorted, home, faults);
  }

  /** The counters of the log centre's header. */
  method CalculateStats(rows: seq<Row>, option: Option<int>, dateKey: nat -> string, now: nat, start: Option<nat>)
    returns (errors: nat, warnings: nat, rawEvents: nat, todayEvents: nat, startupEvents: nat)
    ensures errors == FaultCount(rows, EffectiveWindow(option))
    ensures warnings == Count(rows, WarnRow)
    ensures rawEvents == |rows|
    ensures todayEvents == Count(rows, OnDay(dateKey, now)) <= Count(rows, Since(1))
    ensures startupEvents == match start { case None => 0 case Some(t) => Count(rows, Since(if t > 0 then t else 1)) }
  {
    var grouped, home := AggregateFailures(rows, option);
    errors := Count(grouped, IsFault);
    warnings := Count(grouped, IsWarning);
    rawEvents := |rows|;
    todayEvents := Count(rows, OnDay(dateKey, now));
    startupEvents := match start case None => 0 case Some(t) => Count(rows, Since(if t > 0 then t else 1));
    OnDayIsKnown(rows, dateKey, now);
  }

  /** The row's time is known and on now's day. */
  function OnDay(dateKey: nat -> string, now: nat): Row -> bool {
    (r: Row) => Ts(r) > 0 && dateKey(Ts(r)) == dateKey(now)
  }

  /** The row's time is known and not before t. */
  function Since(t: nat): Row -> bool { (r: Row) => Ts(r) >= t }

  lemma {:induction false} OnDayIsKnown(rows: seq<Row>, dateKey: nat -> string, now: nat)
    ensures Count(rows, OnDay(dateKey, now)) <= Count(rows, Since(1))
  {
    if rows != [] {
      OnDayIsKnown(rows[..|rows| - 1], dateKey, now);
    }
  }

  /** The joined keys tell two calls apart whenever the parts before the code are free of the separator. */
  lemma CallKeysSeparate(a: Row, b: Row)
    requires ':' !in a.session && ':' !in a.call && ':' !in a.status
    requires ':' !in b.session && ':' !in b.call && ':' !in b.status
    ensures CallKey(a) == CallKey(b) <==>
      a.session == b.session && a.call == b.call && a.status == b.status && Code(a) == Code(b)
  {
    KeyParts(a);
    KeyParts(b);
    if CallKey(a) == CallKey(b) {
      CutUnique(a.session, b.session, a.call + ":" + StatusAndCode(a), b.call + ":" + StatusAndCode(b), ':');
      CutUnique(a.call, b.call, StatusAndCode(a), StatusAndCode(b), ':');
      CutUnique(a.status, b.status, Code(a), Code(b), ':');
    }
  }

  function StatusAndCode(r: Row): string { r.status + ":" + Code(r) }

  lemma KeyParts(r: Row)
    ensures |CallKey(r)| >= 5 && CallKey(r)[5..] == r.session + ":" + (r.call + ":" + StatusAndCode(r))
  {
  }
}
