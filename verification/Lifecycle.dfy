/** Lifecycle stages and the transitions the protocol allows. */
module Lifecycle {
  import Frontmatter

  datatype Stage = Inbox | Active | Review | Done | Archive | History

  function Name(s: Stage): string {
    match s
    case Inbox => "inbox"
    case Active => "active"
    case Review => "review"
    case Done => "done"
    case Archive => "archive"
    case History => "history"
  }

  /** VALID_TRANSITIONS.get(from, []) */
  function Successors(from: string): seq<string> {
    if from == "inbox" then ["active"]
    else if from == "active" then ["review", "done"]
    else if from == "review" then ["active", "done"]
    else if from == "done" then ["archive"]
    else if from == "archive" then ["history"]
    else []
  }

  const LIFECYCLE := {"WRITE_TASK", "CLAIM_TASK", "SUBMIT_TASK", "FINISH_TASK", "APPROVE_TASK", "REJECT_TASK",
                      "ARCHIVE_TASK", "ARCHIVE_TO_HISTORY"}

  /** SYSCALL_TO_TARGET on the lifecycle calls. */
  function Target(syscall: string): Stage
    requires syscall in LIFECYCLE
  {
    if syscall == "WRITE_TASK" then Inbox
    else if syscall == "CLAIM_TASK" || syscall == "REJECT_TASK" then Active
    else if syscall == "SUBMIT_TASK" then Review
    else if syscall == "ARCHIVE_TASK" then Archive
    else if syscall == "ARCHIVE_TO_HISTORY" then History
    else Done
  }

  function LowerChar(c: char): char { if 'A' <= c <= 'Z' then c - 'A' + 'a' else c }

  function UpperChar(c: char): char { if 'a' <= c <= 'z' then c - 'a' + 'A' else c }

  function Lower(s: string): string { seq(|s|, i requires 0 <= i < |s| => LowerChar(s[i])) }

  function Upper(s: string): string { seq(|s|, i requires 0 <= i < |s| => UpperChar(s[i])) }

  function Norm(s: string): string { Lower(Frontmatter.Strip(s)) }

  /** validate_transition: does it return without raising? */
  predicate Validates(current: string, target: string) {
    var from, to := Norm(current), Norm(target);
    && from != "" && to != ""
    && (from == to || to in Successors(from))
  }

  predicate Legal(a: Stage, b: Stage) {
    match a
    case Inbox => b == Active
    case Active => b == Review || b == Done
    case Review => b == Active || b == Done
    case Done => b == Archive
    case Archive => b == History
    case History => false
  }

  function Rank(s: Stage): nat {
    match s
    case Inbox => 0
    case Active => 1
    case Review => 1
    case Done => 2
    case Archive => 3
    case History => 4
  }

  predicate IsPlainWord(s: string) { s != "" && forall i :: 0 <= i < |s| ==> 'a' <= s[i] <= 'z' }

  lemma NormOfWord(s: string)
    requires IsPlainWord(s)
    ensures Norm(s) == s
  {
  }

  lemma NamesAreWords(s: Stage)
    ensures IsPlainWord(Name(s))
  {
  }

  lemma SuccessorsAreLegal(a: Stage, b: Stage)
    ensures Name(b) in Successors(Name(a)) <==> Legal(a, b)
    ensures Name(a) == Name(b) <==> a == b
  {
    match a {
      case Inbox => assert Successors(Name(a)) == ["active"];
      case Active => assert Successors(Name(a)) == ["review", "done"];
      case Review => assert Successors(Name(a)) == ["active", "done"];
      case Done => assert Successors(Name(a)) == ["archive"];
      case Archive => assert Successors(Name(a)) == ["history"];
      case History => assert Successors(Name(a)) == [];
    }
  }

  /** On stage names, the table accepts exactly the legal steps and the steps that stay. */
  lemma ValidatesIff(a: Stage, b: Stage)
    ensures Validates(Name(a), Name(b)) <==> a == b || Legal(a, b)
  {
    NamesAreWords(a);
    NamesAreWords(b);
    NormOfWord(Name(a));
    NormOfWord(Name(b));
    SuccessorsAreLegal(a, b);
  }

  predicate StepAt(w: seq<Stage>, i: nat)
    requires i < |w| - 1
  {
    w[i] == w[i + 1] || Legal(w[i], w[i + 1])
  }

  /** A walk of the steps validate_transition accepts (ValidatesIff). */
  ghost predicate Walk(w: seq<Stage>, a: Stage, b: Stage) {
    && w != [] && w[0] == a && w[|w| - 1] == b
    && forall i :: 0 <= i < |w| - 1 ==> StepAt(w, i)
  }

  /** One stage can be reached from another through accepted steps exactly when its rank is not lower. */
  lemma ReachableIffRank(a: Stage, b: Stage)
    ensures (exists w :: Walk(w, a, b)) <==> Rank(a) <= Rank(b)
  {
    forall w | Walk(w, a, b) ensures Rank(a) <= Rank(b) {
      RankAlong(w, a, b);
    }
    if Rank(a) <= Rank(b) {
      var w := Climb(a, b);
    }
  }

  lemma {:induction false} RankAlong(w: seq<Stage>, a: Stage, b: Stage)
    requires Walk(w, a, b)
    ensures Rank(a) <= Rank(b)
    decreases |w|
  {
    if |w| > 1 {
      assert StepAt(w, 0);
      forall i | 0 <= i < |w| - 2 ensures StepAt(w[1..], i) {
        assert StepAt(w, i + 1);
      }
      RankAlong(w[1..], w[1], b);
    }
  }

  /** The next stage on the shortest way up. */
  function Toward(a: Stage, b: Stage): Stage {
    match a
    case Inbox => Active
    case Active => if b == Review then Review else Done
    case Review => if b == Active then Active else Done
    case Done => Archive
    case _ => History
  }

  lemma {:induction false} Climb(a: Stage, b: Stage) returns (w: seq<Stage>)
    requires Rank(a) <= Rank(b)
    ensures Walk(w, a, b)
    decreases Rank(b) - Rank(a), if a == b then 0 else 1
  {
    if a == b {
      w := [a];
    } else {
      var rest := Climb(Toward(a, b), b);
      w := [a] + rest;
      forall i | 0 <= i < |w| - 1 ensures StepAt(w, i) {
        assert i > 0 ==> StepAt(rest, i - 1);
      }
    }
  }
}
