/**
 * How one critical section ends, told from its calls alone: when an update is committed and when it is
 * aborted, and which participants a heartbeat admits.
 */
module Sections {
  import opened KeyValue
  import opened RecordLog
  import opened Participants
  import opened Protocol
  import opened Decisions
  import opened Agreement
  import TwoPhaseCommit
  import Snapshot

  /** The steps after the first are RPCs and records of the same critical section. */
  ghost predicate Section(ls: seq<Label>) {
    ls != [] && forall i :: 1 <= i < |ls| ==> ls[i].Call? || ls[i].Local?
  }

  /** Step j of the run is a call of the prepare loop with the outcome o. */
  ghost predicate PreparesWith(s: Sys, ls: seq<Label>, j: nat, o: Outcome) {
    j < |ls| && ls[j] == Call(o) && Exec(s, ls[..j]).phase.Preparing? && Enabled(Exec(s, ls[..j]), ls[j])
  }

  /** Some PREPARE was refused, or answered. */
  ghost predicate SomePrepare(s: Sys, ls: seq<Label>, o: Outcome) {
    exists j: nat :: PreparesWith(s, ls, j, o)
  }

  lemma {:induction false} SomePrepareOn(s: Sys, ls: seq<Label>, l: Label, o: Outcome)
    ensures var t := Exec(s, ls);
            SomePrepare(s, ls + [l], o) <==>
            SomePrepare(s, ls, o) || (l == Call(o) && t.phase.Preparing? && Enabled(t, l))
  {
    hide Exec, Enabled;
    var more := ls + [l];
    var n := |ls|;
    assert more[..n] == ls;
    forall j: nat | j < n ensures PreparesWith(s, more, j, o) <==> PreparesWith(s, ls, j, o) {
      assert more[..j] == ls[..j];
    }
    if j: nat :| PreparesWith(s, ls, j, o) {
      assert PreparesWith(s, more, j, o);
    }
    if l == Call(o) && Exec(s, ls).phase.Preparing? && Enabled(Exec(s, ls), l) {
      assert PreparesWith(s, more, n, o);
    }
  }

  /** How far the update is, given whether a PREPARE was refused so far and whether one was answered. */
  ghost predicate Progress(s: Sys, refused: bool, answered: bool, t: Sys) {
    match t.phase
    case Preparing(id, _, i, ok) =>
      && id == s.next && (ok <==> !refused) && (i > 0 <==> answered) && i <= |t.members| && (!ok ==> i < |t.members|)
      && t.commits == s.commits && t.aborts == s.aborts
    case Sending(id, commit, _, _, after) =>
      && id == s.next && after.Client? && (commit <==> !refused) && (commit ==> answered)
      && t.commits == s.commits + (if commit then {s.next} else {})
      && t.aborts == s.aborts + (if commit then {} else {s.next})
    case Idle =>
      && t.aborts == s.aborts + (if refused then {s.next} else {})
      && t.commits == s.commits + (if !refused && answered then {s.next} else {})
    case _ => false
  }

  lemma {:induction false} PrepareProgresses(s: Sys, refused: bool, answered: bool, t: Sys, o: Outcome)
    requires WF(t) && t.phase.Preparing? && Calls(t) && Progress(s, refused, answered, t)
    ensures Progress(s, refused || o.Refused?, answered || o.Done?, PrepareCall(t, o))
  {
    hide Prepare, Ascending;
  }

  lemma {:induction false} SendProgresses(s: Sys, refused: bool, answered: bool, t: Sys, o: Outcome)
    requires WF(t) && t.phase.Sending? && Calls(t) && Progress(s, refused, answered, t)
    ensures Progress(s, refused, answered, DoCall(t, o))
  {
    hide Commit, CommitAnswer, Abort, Ascending, Erase;
  }

  lemma {:induction false} LocalProgresses(s: Sys, refused: bool, answered: bool, t: Sys)
    requires Enabled(t, Local) && Progress(s, refused, answered, t)
    ensures Progress(s, refused, answered, DoLocal(t))
  {
    hide Appended, Absorb, Remembered;
  }

  lemma {:induction false} StepProgresses(s: Sys, ls: seq<Label>, l: Label)
    requires WF(s) && (l.Call? || l.Local?)
    requires Progress(s, SomePrepare(s, ls, Refused), SomePrepare(s, ls, Done), Exec(s, ls))
    ensures Progress(s, SomePrepare(s, ls + [l], Refused), SomePrepare(s, ls + [l], Done), Exec(s, ls + [l]))
  {
    var t := Exec(s, ls);
    var refused, answered := SomePrepare(s, ls, Refused), SomePrepare(s, ls, Done);
    ExecOne(s, ls, l);
    SomePrepareOn(s, ls, l, Refused);
    SomePrepareOn(s, ls, l, Done);
    if Enabled(t, l) {
      if l.Local? {
        LocalProgresses(s, refused, answered, t);
      } else if t.phase.Preparing? {
        PrepareProgresses(s, refused, answered, t, l.o);
      } else {
        SendProgresses(s, refused, answered, t, l.o);
      }
    }
    hide Exec, WF, SomePrepare, Progress, DoCall, DoLocal;
  }

  lemma {:induction false} BeginProgresses(s: Sys, l: Label)
    requires WF(s) && s.phase.Idle? && s.members != [] && l.Update?
    ensures Progress(s, SomePrepare(s, [l], Refused), SomePrepare(s, [l], Done), Exec(s, [l]))
  {
    assert [] + [l] == [l] && Exec(s, []) == s;
    assert Progress(s, false, false, Step(s, l)) by {
      hide Appended, Absorb;
    }
    ExecOne(s, [], l);
    SomePrepareOn(s, [], l, Refused);
    SomePrepareOn(s, [], l, Done);
    hide Exec, Step, Progress, WF;
  }

  lemma {:induction false} UpdateProgresses(s: Sys, ls: seq<Label>)
    requires WF(s) && s.phase.Idle? && s.members != [] && Section(ls) && ls[0].Update?
    ensures Progress(s, SomePrepare(s, ls, Refused), SomePrepare(s, ls, Done), Exec(s, ls))
    decreases |ls|
  {
    var n := |ls| - 1;
    var front, l := ls[..n], ls[n];
    assert ls == front + [l];
    hide Exec, WF, SomePrepare, Progress;
    if n == 0 {
      assert ls == [l];
      BeginProgresses(s, l);
    } else {
      UpdateProgresses(s, front);
      StepProgresses(s, front, l);
    }
  }

  /**
   * An update is aborted iff a PREPARE was refused, and committed iff none was and some was answered: a
   * member that cannot be reached is given up, but it stops nothing.
   */
  lemma {:induction false} DecidedByPrepares(s: Sys, ls: seq<Label>)
    requires Inv(s) && s.phase.Idle? && s.members != [] && Section(ls) && ls[0].Update?
    ensures var t := Exec(s, ls);
      && (s.next in t.aborts ==> Call(Refused) in ls)
      && (s.next in t.commits ==> Call(Done) in ls && !SomePrepare(s, ls, Refused))
      && (t.phase.Idle? ==>
            && (s.next in t.aborts <==> SomePrepare(s, ls, Refused))
            && (s.next in t.commits <==> !SomePrepare(s, ls, Refused) && SomePrepare(s, ls, Done)))
  {
    UpdateProgresses(s, ls);
    assert s.next !in s.aborts && s.next !in s.commits;
    hide Inv, Exec;
  }

  // ----- heartbeats

  /** Its NEXT_ID is that of the coordinator, or the one before while that request is undecided. */
  predicate Current(n: Node, s: Sys) {
    n.next == s.next || (n.next + 1 == s.next && n.next in s.records && s.records[n.next].status == UNRESOLVED)
  }

  /** All calls of the section are answered. */
  ghost predicate AllAnswered(ls: seq<Label>) {
    forall i :: 0 <= i < |ls| && ls[i].Call? ==> ls[i] == Call(Done)
  }

  /** The section that recovers a, while every call is answered. */
  ghost predicate Recovering(s: Sys, a: Addr, t: Sys) {
    && a in s.nodes && a in t.nodes
    && match t.phase
       case Asking(b) => b == a && t == s.(phase := t.phase)
       case Fetching(b) => b == a && !Current(s.nodes[a], s) && t == s.(phase := t.phase)
       case Restoring(b, _) => b == a && !Current(s.nodes[a], s) && s.members != []
       case Renumbering(b) => b == a && !Current(s.nodes[a], s) && s.members != []
       case Unfinished(_) => a in t.members && (Current(s.nodes[a], s) || s.members != [])
       case Sending(id, commit, _, _, after) =>
         && a in t.members && (Current(s.nodes[a], s) || s.members != []) && after.Rest?
         && (commit ==> t.nodes[a].next == id + 1)
       case Idle => a in t.members <==> Current(s.nodes[a], s) || s.members != []
       case _ => false
  }

  lemma {:induction false} AskRecovers(s: Sys, a: Addr, t: Sys)
    requires WF(t) && t.phase.Asking? && Recovering(s, a, t)
    ensures Recovering(s, a, AskCall(t, Done))
  {
    hide WF, Insert, SortedRecords;
  }

  lemma {:induction false} FetchRecovers(s: Sys, a: Addr, t: Sys)
    requires WF(t) && t.phase.Fetching? && Recovering(s, a, t)
    ensures t.members != [] ==> Recovering(s, a, FetchCall(t, Done))
    ensures t.members == [] ==> Recovering(s, a, t.(phase := Idle))
  {
    hide WF, Snapshot.Encode, Current;
  }

  lemma RestoreAnswered(t: Sys)
    requires Agree(true, t) && t.phase.Restoring?
    ensures Step(t, Call(Done)).nodes.Keys == t.nodes.Keys + {t.phase.a}
  {
    hide Stores, Snapshot.Recover, Ascending;
  }

  lemma {:induction false} RestoreRecovers(s: Sys, a: Addr, t: Sys)
    requires Agree(true, t) && t.phase.Restoring? && Recovering(s, a, t)
    ensures Recovering(s, a, Step(t, Call(Done)))
  {
    hide WF, Agree, Step, Current, Snapshot.Recover;
    TwoPhaseCommit.ExactStep(t, Done);
    RestoreAnswered(t);
  }

  lemma {:induction false} RenumberRecovers(s: Sys, a: Addr, t: Sys)
    requires WF(t) && t.phase.Renumbering? && Recovering(s, a, t)
    ensures Recovering(s, a, RenumberCall(t, Done))
  {
    hide WF, Insert, SortedRecords, Current;
  }

  /** The record handled is the only one; if it says COMMIT then the member is already behind its id. */
  lemma {:induction false} UnfinishedRecovers(s: Sys, a: Addr, t: Sys)
    requires Inv(t) && t.phase.Unfinished? && Recovering(s, a, t)
    ensures Recovering(s, a, NextUnfinished(t))
  {
    if t.phase.todo != [] {
      assert t.phase.todo[0].id in DiskRecords(t);
    }
    hide WF, NodesInv, Current, Protocol.Log;
  }

  lemma {:induction false} SendRecovers(s: Sys, a: Addr, t: Sys)
    requires WF(t) && t.phase.Sending? && Calls(t) && Recovering(s, a, t)
    ensures Recovering(s, a, DoCall(t, Done))
  {
    hide Ascending, Current, Abort;
  }

  lemma {:induction false} FinishRecovers(s: Sys, a: Addr, t: Sys)
    requires t.phase.Sending? && Recovering(s, a, t)
    ensures Recovering(s, a, Finished(t))
  {
    hide Appended, Absorb, Current;
  }

  lemma {:induction false} StepRecovers(s: Sys, a: Addr, t: Sys, l: Label)
    requires Agree(true, t) && Recovering(s, a, t) && (l == Call(Done) || l.Local?)
    ensures Recovering(s, a, Step(t, l))
  {
    assert WF(t);
    if Enabled(t, l) {
      hide Agree, Inv, WF, Recovering, Current;
      match t.phase
      case Asking(_) => AskRecovers(s, a, t);
      case Fetching(_) => FetchRecovers(s, a, t);
      case Restoring(_, _) => RestoreRecovers(s, a, t);
      case Renumbering(_) => RenumberRecovers(s, a, t);
      case Unfinished(_) => UnfinishedRecovers(s, a, t);
      case Sending(_, _, _, _, _) => if l.Local? { FinishRecovers(s, a, t); } else { SendRecovers(s, a, t); }
      case _ => NotRecovering(s, a, t);
    }
  }

  lemma NotRecovering(s: Sys, a: Addr, t: Sys)
    requires Recovering(s, a, t)
    ensures !t.phase.Getting? && !t.phase.Preparing? && !t.phase.Starting? && !t.phase.Down? && !t.phase.AssertFailed?
  {
  }

  lemma InConf(s: Sys, a: Addr)
    requires WF(s) && a in s.conf
    ensures a in s.nodes
  {
  }

  lemma BeatAsks(s: Sys, a: Addr)
    requires WF(s) && s.phase.Idle? && a in s.conf && a !in s.members
    ensures Exec(s, []) == s && Recovering(s, a, Step(s, Beat(a)))
  {
  }

  lemma {:induction false} SectionAgrees(s: Sys, ls: seq<Label>)
    requires Agree(true, s) && forall i :: 0 <= i < |ls| ==> ls[i].Beat? || ls[i].Call? || ls[i].Local?
    ensures Agree(true, Exec(s, ls)) && WF(s)
  {
    hide Exec, Stores;
    RunAgrees(true, s, ls);
  }

  lemma {:induction false} BeatRecovers(s: Sys, a: Addr, ls: seq<Label>)
    requires Agree(true, s) && s.phase.Idle? && a in s.conf && a !in s.members
    requires Section(ls) && ls[0] == Beat(a) && AllAnswered(ls)
    ensures Agree(true, Exec(s, ls)) && Recovering(s, a, Exec(s, ls))
    decreases |ls|
  {
    hide Exec, Agree, Step, Recovering, WF;
    SectionAgrees(s, ls);
    var n := |ls| - 1;
    var front, l := ls[..n], ls[n];
    assert ls == front + [l];
    ExecOne(s, front, l);
    if n == 0 {
      BeatAsks(s, a);
    } else {
      BeatRecovers(s, a, front);
      StepRecovers(s, a, Exec(s, front), l);
    }
  }

  /**
   * A heartbeat whose calls are all answered admits the participant iff it is current, or is one undecided
   * request behind, or there is a member to take a snapshot from.
   */
  lemma {:induction false} AdmittedIff(s: Sys, a: Addr, ls: seq<Label>)
    requires Agree(true, s) && s.phase.Idle? && a in s.conf && a !in s.members
    requires Section(ls) && ls[0] == Beat(a) && AllAnswered(ls) && Exec(s, ls).phase.Idle?
    ensures a in s.nodes
    ensures a in Exec(s, ls).members <==>
            || s.nodes[a].next == s.next
            || (s.nodes[a].next + 1 == s.next && s.nodes[a].next in s.records &&
                s.records[s.nodes[a].next].status == UNRESOLVED)
            || s.members != []
  {
    hide Exec, Agree, Inv;
    SectionAgrees(s, []);
    InConf(s, a);
    BeatRecovers(s, a, ls);
  }
}
