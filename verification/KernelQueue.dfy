/** Dispatches of one kernel in every interleaving with each other and with close(). */
module KernelQueue {
  import opened Text
  import opened Lifecycle
  import opened Kernel

  /** Every request that passed the checks has a ticket, its place in admitted. waiting holds the tickets queued
      for the lock, holder the one whose entry is being written, dropped those that got no entry. */
  datatype Ticketed = Ticketed(ticket: nat, entry: Entry)

  datatype State = State(closed: bool, admitted: seq<Request>, waiting: seq<nat>, holder: Option<Ticketed>,
                         dropped: seq<nat>, journal: seq<Ticketed>)

  /** fs are the files at the time of the verdict. */
  datatype Step =
    | Arrive(q: Request, fs: Folders, r: Reply)
    | Enter(fs: Folders, r: Reply)
    | Append
    | AppendFails
    | Shut

  function Start(): State { State(false, [], [], None, [], []) }

  /** The verdict on a request that has just got the lock. */
  function Judged(s: State, ticket: nat, r: Reply): State {
    match r
    case Accepted(e) => s.(holder := Some(Ticketed(ticket, e)))
    case Refused(_) => s.(dropped := s.dropped + [ticket])
  }

  /** An admitted request gets a ticket, and the lock if it is free and nobody queues. */
  function Arrived(s: State, q: Request, r: Reply, isVerdict: bool): State {
    var t := s.(admitted := s.admitted + [q]);
    if s.holder.Some? || s.waiting != [] then t.(waiting := s.waiting + [|s.admitted|])
    else if isVerdict then Judged(t, |s.admitted|, r)
    else s
  }

  /** The first in the queue gets the released lock. */
  function Entered(s: State, r: Reply): State
    requires s.waiting != []
  {
    Judged(s.(waiting := s.waiting[1..]), s.waiting[0], r)
  }

  function Written(s: State): State
    requires s.holder.Some?
  {
    s.(journal := s.journal + [s.holder.value], holder := None)
  }

  /** One step; a step that is not enabled changes nothing. */
  ghost function Apply(mode: string, s: State, step: Step): State {
    match step
    case Arrive(q, fs, r) =>
      if Admissible(mode, s.closed, q) then Arrived(s, q, r, Decides(mode, q, fs, r)) else s
    case Enter(fs, r) =>
      if s.holder == None && s.waiting != [] && s.waiting[0] < |s.admitted|
         && Decides(mode, s.admitted[s.waiting[0]], fs, r)
      then Entered(s, r) else s
    case Append => if s.holder.Some? then Written(s) else s
    case AppendFails =>
      if s.holder.Some? then s.(dropped := s.dropped + [s.holder.value.ticket], holder := None) else s
    case Shut => s.(closed := true)
  }

  ghost function Run(mode: string, s: State, steps: seq<Step>): State
    decreases |steps|
  {
    if steps == [] then s else Run(mode, Apply(mode, s, steps[0]), steps[1..])
  }

  // ----- the invariant

  /** The entry is lawful and is about the request of the ticket, which passed the checks of an open kernel. */
  ghost predicate Answers(mode: string, s: State, e: Ticketed) {
    && e.ticket < |s.admitted| && Lawful(mode, e.entry)
    && var q := s.admitted[e.ticket];
       e.entry.task == q.task && e.entry.syscall == Call(q) && e.entry.caller == q.caller && e.entry.driver == Driver(q)
  }

  function Tickets(es: seq<Ticketed>): multiset<nat> {
    if es == [] then multiset{} else Tickets(es[..|es| - 1]) + multiset{es[|es| - 1].ticket}
  }

  function Held(s: State): multiset<nat> {
    if s.holder.Some? then multiset{s.holder.value.ticket} else multiset{}
  }

  function AllTickets(s: State): multiset<nat> {
    Tickets(s.journal) + multiset(s.dropped) + multiset(s.waiting) + Held(s)
  }

  ghost predicate EachTicketOnce(s: State) {
    forall k: nat :: AllTickets(s)[k] == if k < |s.admitted| then 1 else 0
  }

  ghost predicate AllAnswer(mode: string, s: State) {
    && (forall i :: 0 <= i < |s.journal| ==> Answers(mode, s, s.journal[i]))
    && (s.holder.Some? ==> Answers(mode, s, s.holder.value))
  }

  ghost predicate Inv(mode: string, s: State) {
    && mode in MODES
    && (forall i :: 0 <= i < |s.admitted| ==> Admissible(mode, false, s.admitted[i]))
    && AllAnswer(mode, s) && EachTicketOnce(s)
  }

  lemma StartInv(mode: string)
    requires mode in MODES
    ensures Inv(mode, Start())
  {
  }

  lemma TicketsSnoc(es: seq<Ticketed>, e: Ticketed)
    ensures Tickets(es + [e]) == Tickets(es) + multiset{e.ticket}
  {
    assert (es + [e])[..|es|] == es;
  }

  lemma SplitFirst(waiting: seq<nat>)
    requires waiting != []
    ensures multiset(waiting) == multiset{waiting[0]} + multiset(waiting[1..])
  {
    assert waiting == [waiting[0]] + waiting[1..];
  }

  lemma AnswersMore(mode: string, s: State, q: Request, e: Ticketed)
    requires Answers(mode, s, e)
    ensures Answers(mode, s.(admitted := s.admitted + [q]), e)
  {
  }

  lemma JudgedTickets(s: State, k: nat, r: Reply)
    requires s.holder == None
    ensures AllTickets(Judged(s, k, r)) == AllTickets(s) + multiset{k} && Judged(s, k, r).admitted == s.admitted
  {
  }

  lemma QueuedTickets(s: State, q: Request, k: nat)
    ensures AllTickets(s.(admitted := s.admitted + [q], waiting := s.waiting + [k])) == AllTickets(s) + multiset{k}
  {
  }

  ghost predicate TicketsMove(s: State, r: State) {
    || (r.admitted == s.admitted && AllTickets(r) == AllTickets(s))
    || (|r.admitted| == |s.admitted| + 1 && AllTickets(r) == AllTickets(s) + multiset{|s.admitted|})
  }

  lemma ArriveTickets(s: State, q: Request, r: Reply, isVerdict: bool)
    ensures TicketsMove(s, Arrived(s, q, r, isVerdict))
  {
    if s.holder.Some? || s.waiting != [] {
      QueuedTickets(s, q, |s.admitted|);
    } else {
      JudgedTickets(s.(admitted := s.admitted + [q]), |s.admitted|, r);
    }
  }

  lemma EnterTickets(s: State, r: Reply)
    requires s.holder == None && s.waiting != []
    ensures TicketsMove(s, Entered(s, r))
  {
    SplitFirst(s.waiting);
    var t := s.(waiting := s.waiting[1..]);
    JudgedTickets(t, s.waiting[0], r);
    assert AllTickets(t) + multiset{s.waiting[0]} == AllTickets(s);
  }

  lemma WrittenTickets(s: State)
    requires s.holder.Some?
    ensures TicketsMove(s, Written(s))
  {
    TicketsSnoc(s.journal, s.holder.value);
  }

  lemma DroppedTickets(s: State)
    requires s.holder.Some?
    ensures TicketsMove(s, s.(dropped := s.dropped + [s.holder.value.ticket], holder := None))
  {
  }

  /** A step gives out the next ticket or moves one from queue to holder to journal; none is lost or doubled. */
  lemma StepTickets(mode: string, s: State, step: Step)
    ensures TicketsMove(s, Apply(mode, s, step))
  {
    match step
    case Arrive(q, fs, r) => ArriveTickets(s, q, r, Decides(mode, q, fs, r));
    case Enter(_, r) => if s.holder == None && s.waiting != [] { EnterTickets(s, r); }
    case Append => if s.holder.Some? { WrittenTickets(s); }
    case AppendFails => if s.holder.Some? { DroppedTickets(s); }
    case Shut =>
  }

  lemma OncePerTicket(s: State, r: State)
    requires EachTicketOnce(s) && TicketsMove(s, r)
    ensures EachTicketOnce(r)
  {
    assert AllTickets(s)[|s.admitted|] == 0;
  }

  lemma MoreAdmitted(mode: string, s: State, q: Request)
    requires AllAnswer(mode, s)
    ensures AllAnswer(mode, s.(admitted := s.admitted + [q]))
  {
    forall i | 0 <= i < |s.journal| ensures Answers(mode, s.(admitted := s.admitted + [q]), s.journal[i]) {
      AnswersMore(mode, s, q, s.journal[i]);
    }
    if s.holder.Some? { AnswersMore(mode, s, q, s.holder.value); }
  }

  lemma JudgedAnswers(mode: string, s: State, k: nat, fs: Folders, r: Reply)
    requires AllAnswer(mode, s) && s.holder == None && k < |s.admitted|
    requires Admissible(mode, false, s.admitted[k]) && Decides(mode, s.admitted[k], fs, r)
    ensures AllAnswer(mode, Judged(s, k, r))
  {
    var t := Judged(s, k, r);
    assert t.admitted == s.admitted && t.journal == s.journal;
    forall i | 0 <= i < |t.journal| ensures Answers(mode, t, t.journal[i]) {
      assert Answers(mode, s, s.journal[i]);
    }
  }

  lemma ArrivedAnswers(mode: string, s: State, q: Request, fs: Folders, r: Reply)
    requires AllAnswer(mode, s) && Admissible(mode, false, q)
    ensures AllAnswer(mode, Arrived(s, q, r, Decides(mode, q, fs, r)))
  {
    var t := s.(admitted := s.admitted + [q]);
    MoreAdmitted(mode, s, q);
    if s.holder == None && s.waiting == [] && Decides(mode, q, fs, r) {
      JudgedAnswers(mode, t, |s.admitted|, fs, r);
    }
  }

  lemma WrittenAnswers(mode: string, s: State)
    requires AllAnswer(mode, s) && s.holder.Some?
    ensures AllAnswer(mode, Written(s))
  {
    var t := Written(s);
    forall i | 0 <= i < |t.journal| ensures Answers(mode, t, t.journal[i]) {
      assert Answers(mode, s, if i < |s.journal| then s.journal[i] else s.holder.value);
    }
  }

  /** Requests stay admissible and entries go on answering them. */
  lemma StepAnswers(mode: string, s: State, step: Step)
    requires Inv(mode, s)
    ensures
      var r := Apply(mode, s, step);
      AllAnswer(mode, r) && forall i :: 0 <= i < |r.admitted| ==> Admissible(mode, false, r.admitted[i])
  {
    match step
    case Arrive(q, fs, r) => if Admissible(mode, s.closed, q) { ArrivedAnswers(mode, s, q, fs, r); }
    case Enter(fs, r) =>
      if s.holder == None && s.waiting != [] && s.waiting[0] < |s.admitted|
         && Decides(mode, s.admitted[s.waiting[0]], fs, r) {
        JudgedAnswers(mode, s.(waiting := s.waiting[1..]), s.waiting[0], fs, r);
      }
    case Append => if s.holder.Some? { WrittenAnswers(mode, s); }
    case AppendFails =>
    case Shut =>
  }

  lemma StepInv(mode: string, s: State, step: Step)
    requires Inv(mode, s)
    ensures Inv(mode, Apply(mode, s, step))
  {
    StepTickets(mode, s, step);
    OncePerTicket(s, Apply(mode, s, step));
    StepAnswers(mode, s, step);
  }

  /** In every interleaving of dispatches and close(), every journalled entry is lawful, answers a request that
      passed the checks while the kernel was open, and is that request's only entry. */
  lemma {:induction false} RunInv(mode: string, s: State, steps: seq<Step>)
    requires Inv(mode, s)
    ensures Inv(mode, Run(mode, s, steps))
    decreases |steps|
  {
    if steps != [] {
      StepInv(mode, s, steps[0]);
      RunInv(mode, Apply(mode, s, steps[0]), steps[1..]);
    }
  }

  // ----- entries after close()

  ghost predicate Journalled(s: State, k: nat) { exists i :: 0 <= i < |s.journal| && s.journal[i].ticket == k }

  ghost predicate EndsJournalled(mode: string, s: State, steps: seq<Step>, k: nat) {
    Journalled(Run(mode, s, steps), k)
  }

  /** The request passed the checks and is queued or being written. */
  predicate Pending(s: State, k: nat) { k in s.waiting || (s.holder.Some? && s.holder.value.ticket == k) }

  /** After close() no request is admitted any more, so tickets only leave the queue. */
  lemma ClosedStep(mode: string, s: State, step: Step, k: nat)
    requires s.closed && !Journalled(s, k) && !Pending(s, k)
    ensures
      var r := Apply(mode, s, step);
      r.closed && r.admitted == s.admitted && !Journalled(r, k) && !Pending(r, k)
  {
    if step.Append? && s.holder.Some? {
      var r := Apply(mode, s, step);
      assert r.journal[..|s.journal|] == s.journal;
    }
  }

  lemma {:induction false} ClosedRun(mode: string, s: State, steps: seq<Step>, k: nat)
    requires s.closed && !Journalled(s, k) && !Pending(s, k)
    ensures !Journalled(Run(mode, s, steps), k)
    decreases |steps|
  {
    if steps != [] {
      ClosedStep(mode, s, steps[0], k);
      ClosedRun(mode, Apply(mode, s, steps[0]), steps[1..], k);
    }
  }

  /** Without files there is nothing to forbid. */
  function Unopposed(mode: string, q: Request): Entry {
    Entry(q.task, Call(q), q.caller, Driver(q), mode, None,
          if Call(q) in LIFECYCLE then Some(Target(Call(q))) else None)
  }

  lemma NothingForbids(mode: string, q: Request)
    requires mode in MODES && Admissible(mode, false, q)
    ensures Decides(mode, q, map[], Accepted(Unopposed(mode, q)))
  {
  }

  lemma WriteIn(s: State)
    requires s.holder.Some?
    ensures Journalled(Written(s), s.holder.value.ticket)
    ensures forall k :: k in s.waiting ==> Pending(Written(s), k)
  {
    assert Written(s).journal[|s.journal|] == s.holder.value;
  }

  /** The step that brings the queue forward. */
  lemma Forward(mode: string, s: State) returns (step: Step)
    requires Inv(mode, s) && s.holder == None && s.waiting != []
    ensures
      var r := Apply(mode, s, step);
      r.waiting == s.waiting[1..] && r.holder.Some? && r.holder.value.ticket == s.waiting[0]
  {
    FirstIsAdmitted(s);
    var q := s.admitted[s.waiting[0]];
    NothingForbids(mode, q);
    step := Enter(map[], Accepted(Unopposed(mode, q)));
  }

  lemma RunCons(mode: string, s: State, step: Step, rest: seq<Step>)
    ensures Run(mode, s, [step] + rest) == Run(mode, Apply(mode, s, step), rest)
  {
    assert ([step] + rest)[1..] == rest;
  }

  lemma QueueMoves(s: State, r: State, k: nat)
    requires s.holder == None && s.waiting != [] && Pending(s, k)
    requires r.waiting == s.waiting[1..] && r.holder.Some? && r.holder.value.ticket == s.waiting[0]
    ensures Pending(r, k)
  {
    assert s.waiting == [s.waiting[0]] + s.waiting[1..];
  }

  /** A pending request can come closer to its entry, or get it. */
  lemma PendingMoves(mode: string, s: State, k: nat) returns (step: Step)
    requires Inv(mode, s) && Pending(s, k)
    ensures
      var r := Apply(mode, s, step);
      && Inv(mode, r) && (Journalled(r, k) || Pending(r, k))
      && (|r.waiting| < |s.waiting| || (|r.waiting| == |s.waiting| && s.holder.Some? && r.holder == None))
  {
    step := Append;
    if s.holder.Some? {
      WriteIn(s);
      assert Apply(mode, s, step) == Written(s);
    } else {
      step := Forward(mode, s);
      QueueMoves(s, Apply(mode, s, step), k);
    }
    StepInv(mode, s, step);
  }

  /** Every pending request can still be journalled. */
  lemma {:induction false} PendingGetsIn(mode: string, s: State, k: nat) returns (steps: seq<Step>)
    requires Inv(mode, s) && Pending(s, k)
    ensures Journalled(Run(mode, s, steps), k)
    decreases |s.waiting|, if s.holder.Some? then 1 else 0
  {
    var step := PendingMoves(mode, s, k);
    var r := Apply(mode, s, step);
    var rest := [];
    if Journalled(r, k) {
      assert Run(mode, r, rest) == r;
    } else {
      rest := PendingGetsIn(mode, r, k);
    }
    steps := [step] + rest;
    RunCons(mode, s, step, rest);
  }

  lemma FirstIsAdmitted(s: State)
    requires EachTicketOnce(s) && s.waiting != []
    ensures s.waiting[0] < |s.admitted|
  {
    assert s.waiting[0] in multiset(s.waiting);
    assert AllTickets(s)[s.waiting[0]] > 0;
  }

  lemma PendingIsAdmitted(s: State, k: nat)
    requires EachTicketOnce(s) && Pending(s, k)
    ensures k < |s.admitted|
  {
    assert k in s.waiting ==> k in multiset(s.waiting);
    assert AllTickets(s)[k] > 0;
  }

  /** From a closed kernel on, a request not yet journalled can still be journalled if and only if it is pending:
      it passed the checks before close() and waits for the lock or for its entry to be written. */
  lemma JournalsAfterCloseIff(mode: string, s: State, k: nat)
    requires Inv(mode, s) && s.closed && !Journalled(s, k)
    ensures (exists steps :: EndsJournalled(mode, s, steps, k)) <==> Pending(s, k)
    ensures Pending(s, k) ==> k < |s.admitted| && Admissible(mode, false, s.admitted[k])
  {
    if Pending(s, k) {
      var steps := PendingGetsIn(mode, s, k);
      assert EndsJournalled(mode, s, steps, k);
      PendingIsAdmitted(s, k);
    } else {
      forall steps ensures !EndsJournalled(mode, s, steps, k) {
        ClosedRun(mode, s, steps, k);
      }
    }
  }

  // ----- the verdicts on given files

  lemma StageExists(fs: Folders, task: string) returns (s: Option<Stage>)
    ensures Resolves(fs, task, s)
  {
    if b :| Holds(fs, b, task) {
      var a := FirstHeld(fs, task, b);
      s := Some(a);
    } else {
      s := None;
    }
  }

  lemma {:induction false} FirstHeld(fs: Folders, task: string, b: Stage) returns (a: Stage)
    requires Holds(fs, b, task)
    ensures Resolves(fs, task, Some(a))
    decreases Place(b)
  {
    if c :| Holds(fs, c, task) && Place(c) < Place(b) {
      a := FirstHeld(fs, task, c);
    } else {
      a := b;
    }
  }

  /** Every admissible request has a verdict on every state of the files: acceptance, unless they forbid it. */
  lemma VerdictExists(mode: string, q: Request, fs: Folders) returns (r: Reply)
    requires mode in MODES && Admissible(mode, false, q)
    ensures Decides(mode, q, fs, r) && (r.Accepted? <==> !Forbids(q, fs))
  {
    if Forbids(q, fs) {
      r := Refused(Forbidden);
    } else {
      var before := None;
      if q.task != "" {
        before := StageExists(fs, q.task);
      }
      r := Accepted(Unopposed(mode, q).(before := before));
    }
  }

  lemma VerdictIs(mode: string, q: Request, fs: Folders, r: Reply)
    requires mode in MODES && Admissible(mode, false, q) && Decides(mode, q, fs, r)
    ensures r.Accepted? <==> !Forbids(q, fs)
  {
    var v := VerdictExists(mode, q, fs);
    DecidesOnce(mode, q, fs, r, v);
  }

  /** All verdicts of the run are taken on the files fs. */
  ghost predicate JudgedOn(steps: seq<Step>, fs: Folders) {
    forall i :: 0 <= i < |steps| && (steps[i].Enter? || steps[i].Arrive?) ==> steps[i].fs == fs
  }

  ghost predicate GetsInOn(mode: string, s: State, steps: seq<Step>, fs: Folders, k: nat) {
    JudgedOn(steps, fs) && Journalled(Run(mode, s, steps), k)
  }

  ghost predicate HoldsLock(s: State, k: nat) { s.holder.Some? && s.holder.value.ticket == k }

  /** The request has no entry and no accepting verdict. */
  ghost predicate Unserved(s: State, k: nat) {
    k < |s.admitted| && !Journalled(s, k) && !HoldsLock(s, k)
  }

  lemma UnservedStep(mode: string, s: State, step: Step, fs: Folders, k: nat)
    requires Inv(mode, s) && Unserved(s, k) && (step.Enter? || step.Arrive? ==> step.fs == fs)
    requires k in s.waiting ==> Forbids(s.admitted[k], fs)
    ensures
      var r := Apply(mode, s, step);
      && Unserved(r, k) && r.admitted[k] == s.admitted[k]
      && (k in r.waiting ==> k in s.waiting)
  {
    match step
    case Arrive(_, _, _) =>
    case Enter(_, r) =>
      if s.holder == None && s.waiting != [] && s.waiting[0] == k && Decides(mode, s.admitted[k], fs, r) {
        VerdictIs(mode, s.admitted[k], fs, r);
      }
    case Append =>
      if s.holder.Some? {
        assert Written(s).journal[..|s.journal|] == s.journal;
      }
    case AppendFails =>
    case Shut =>
  }

  lemma {:induction false} UnservedRun(mode: string, s: State, steps: seq<Step>, fs: Folders, k: nat)
    requires Inv(mode, s) && Unserved(s, k) && JudgedOn(steps, fs)
    requires k in s.waiting ==> Forbids(s.admitted[k], fs)
    ensures !Journalled(Run(mode, s, steps), k)
    decreases |steps|
  {
    if steps != [] {
      UnservedStep(mode, s, steps[0], fs, k);
      StepInv(mode, s, steps[0]);
      UnservedRun(mode, Apply(mode, s, steps[0]), steps[1..], fs, k);
    }
  }

  /** The next verdict, on these files. */
  lemma EntersOn(mode: string, s: State, fs: Folders) returns (step: Step)
    requires Inv(mode, s) && s.holder == None && s.waiting != []
    ensures step.Enter? && step.fs == fs && s.waiting[0] < |s.admitted|
    ensures
      var r := Apply(mode, s, step);
      && Inv(mode, r) && r.waiting == s.waiting[1..] && r.journal == s.journal && r.admitted == s.admitted
      && if Forbids(s.admitted[s.waiting[0]], fs) then r.holder == None else HoldsLock(r, s.waiting[0])
  {
    FirstIsAdmitted(s);
    var v := VerdictExists(mode, s.admitted[s.waiting[0]], fs);
    step := Enter(fs, v);
    StepInv(mode, s, step);
  }

  lemma OnceInLine(s: State, k: nat)
    requires EachTicketOnce(s)
    ensures HoldsLock(s, k) ==> k !in s.waiting
    ensures s.waiting != [] && k == s.waiting[0] ==> k !in s.waiting[1..]
    ensures Journalled(s, k) ==> !Pending(s, k)
  {
    if Journalled(s, k) {
      var i :| 0 <= i < |s.journal| && s.journal[i].ticket == k;
      TicketIn(s.journal, i);
    }
    if s.waiting != [] { SplitFirst(s.waiting); }
    assert AllTickets(s)[k] <= 1;
    assert forall w: seq<nat> :: k in w ==> multiset(w)[k] > 0;
  }

  lemma {:induction false} TicketIn(es: seq<Ticketed>, i: nat)
    requires i < |es|
    ensures es[i].ticket in Tickets(es)
  {
    if i < |es| - 1 { TicketIn(es[..|es| - 1], i); }
  }

  /** What one step of the queue on these files makes of a pending request. */
  ghost predicate Settles(s: State, r: State, fs: Folders, k: nat) {
    k < |s.admitted| && r.admitted == s.admitted
    && if HoldsLock(s, k) then Journalled(r, k)
       else if Pending(r, k) then HoldsLock(r, k) ==> !Forbids(s.admitted[k], fs)
       else Forbids(s.admitted[k], fs) && !Journalled(r, k)
  }

  lemma WriteSettles(mode: string, s: State, fs: Folders, k: nat)
    requires Inv(mode, s) && Pending(s, k) && s.holder.Some?
    ensures Inv(mode, Written(s)) && Settles(s, Written(s), fs, k)
  {
    PendingIsAdmitted(s, k);
    StepInv(mode, s, Append);
    assert Apply(mode, s, Append) == Written(s);
    WriteIn(s);
  }

  lemma EnterSettles(mode: string, s: State, fs: Folders, k: nat) returns (step: Step)
    requires Inv(mode, s) && Pending(s, k) && s.holder == None
    ensures step.Enter? && step.fs == fs
    ensures
      var r := Apply(mode, s, step);
      Inv(mode, r) && |r.waiting| < |s.waiting| && Settles(s, r, fs, k)
  {
    PendingIsAdmitted(s, k);
    OnceInLine(s, k);
    step := EntersOn(mode, s, fs);
    assert s.waiting == [s.waiting[0]] + s.waiting[1..];
  }

  /** On any files, every pending request is settled: it leaves the queue, journalled exactly if it had its verdict
      already or the files do not forbid it. */
  lemma {:induction false} PendingSettles(mode: string, s: State, fs: Folders, k: nat) returns (steps: seq<Step>)
    requires Inv(mode, s) && Pending(s, k)
    ensures JudgedOn(steps, fs) && k < |s.admitted|
    ensures
      var r := Run(mode, s, steps);
      !Pending(r, k) && (Journalled(r, k) <==> HoldsLock(s, k) || !Forbids(s.admitted[k], fs))
    decreases |s.waiting|, if s.holder.Some? then 1 else 0
  {
    var step := Append;
    if s.holder.Some? {
      WriteSettles(mode, s, fs, k);
      assert Apply(mode, s, step) == Written(s);
    } else {
      step := EnterSettles(mode, s, fs, k);
    }
    var r := Apply(mode, s, step);
    var rest := [];
    if Pending(r, k) {
      OnceInLine(r, k);
      rest := PendingSettles(mode, r, fs, k);
    } else {
      assert Run(mode, r, rest) == r;
    }
    steps := [step] + rest;
    RunCons(mode, s, step, rest);
  }

  /** With all verdicts taken on the files fs, an admitted request not yet journalled can be journalled if and only if
      its entry is being written, or it is queued and the files do not forbid it; closing changes nothing in this. */
  lemma JournalledOnFilesIff(mode: string, s: State, fs: Folders, k: nat)
    requires Inv(mode, s) && k < |s.admitted| && !Journalled(s, k)
    ensures (exists steps :: GetsInOn(mode, s, steps, fs, k)) <==>
      HoldsLock(s, k) || (k in s.waiting && !Forbids(s.admitted[k], fs))
  {
    if HoldsLock(s, k) || (k in s.waiting && !Forbids(s.admitted[k], fs)) {
      var steps := PendingSettles(mode, s, fs, k);
      assert GetsInOn(mode, s, steps, fs, k);
    } else {
      forall steps ensures !GetsInOn(mode, s, steps, fs, k) {
        if JudgedOn(steps, fs) { UnservedRun(mode, s, steps, fs, k); }
      }
    }
  }

  /** A single request suffices: its entry is being written when the kernel is closed. */
  lemma ClosedKernelJournals(q: Request) returns (steps: seq<Step>)
    requires Admissible("mcp", false, q)
    ensures Run("mcp", Start(), steps) ==
      State(true, [q], [], None, [], [Ticketed(0, Unopposed("mcp", q))])
    ensures |steps| == 3 && steps[1] == Shut && steps[2] == Append
  {
    NothingForbids("mcp", q);
    var arrive := Arrive(q, map[], Accepted(Unopposed("mcp", q)));
    steps := [arrive, Shut, Append];
    var a := Apply("mcp", Start(), arrive);
    var b := Apply("mcp", a, Shut);
    var c := Apply("mcp", b, Append);
    assert steps == [arrive] + [Shut, Append] && [Shut, Append] == [Shut] + [Append] && [Append] == [Append] + [];
    RunCons("mcp", Start(), arrive, [Shut, Append]);
    RunCons("mcp", a, Shut, [Append]);
    RunCons("mcp", b, Append, []);
    assert Run("mcp", c, []) == c;
  }
}
