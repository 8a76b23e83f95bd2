/** What replies say in every run with any crashes, when stores may hold more than was committed. */
module Replies {
  import opened KeyValue
  import opened RecordLog
  import opened Participants
  import opened Protocol
  import opened Decisions
  import opened Agreement
  import opened TwoPhaseCommit
  import opened Origins
  import Resp
  import Snapshot

  // ----- GET

  /**
   * What a GET may read: the committed value; without one, nothing, or a value that a committed DEL
   * removed and that was there at the start or came from a committed SET.
   */
  ghost predicate MayRead(start: map<Addr, Node>, s: Sys, k: string, v: string) {
    if k in Committed(s) then v == Committed(s)[k]
    else
      || v == "nil"
      || ((Inherited(start, k, v) || Written(s.cmds, s.commits, k, v)) && exists i :: Deletes(s.cmds, s.commits, i, k))
  }

  lemma MemberContains(s: Sys, a: Addr)
    requires Agree(false, s) && s.phase.Getting? && a in s.members
    ensures a in s.nodes && Contains(s.nodes[a].store, Committed(s))
  {
    NodeFacts(false, s, a);
  }

  /** Whatever crashes: an answered GET replies with a value it may read. */
  lemma {:induction false} GetInEveryRun(s: Sys, ls: seq<Label>) returns (v: string)
    requires FirstStart(s) && SmallRun(ls) && Exec(s, ls).phase.Getting?
    ensures var t := Exec(s, ls);
      Step(t, Call(Done)).out == t.out + [Resp.EncodeResult(v)] && MayRead(s.nodes, t, t.phase.key, v)
  {
    var t := Exec(s, ls);
    var k := t.phase.key;
    RunKnown(s, ls);
    GetAnswered(t);
    var st := t.nodes[t.members[0]].store;
    MemberContains(t, t.members[0]);
    v := if k in st then st[k] else "nil";
    if k in st && k !in Committed(t) {
      hide Exec, FirstStart, Agree, Committed, Inherited, Written, Deletes, Known, Step;
      OnlyCommittedData(s, ls, t.members[0], k);
      SurplusWasDeleted(s, ls, t.members[0], k);
    }
  }

  // ----- SET and DEL

  /**
   * What the COMMIT loop of a client has collected: nothing before the first answer, and from then on
   * the reply of the command on some store that contains the committed one before it.
   */
  ghost predicate Collected(s: Sys) {
    s.phase.Sending? && s.phase.commit && s.phase.after.Client? ==>
      if s.phase.i == 0 then s.phase.ret == ""
      else exists st: Store :: Contains(st, Before(s)) && s.phase.ret == Reply(s.phase.after.cmd, st)
  }

  lemma AnswerText(n: Node, id: nat)
    requires n.next == id && id in n.pending
    ensures CommitAnswer(n, id).Answer? ==> CommitAnswer(n, id).text == Reply(n.pending[id], n.store)
  {
  }

  /** What a member that answers a client's COMMIT answers. */
  lemma {:induction false} CommitText(s: Sys)
    requires Agree(false, s) && s.phase.Sending? && s.phase.commit && s.phase.after.Client? && Calls(s)
    ensures var n := s.nodes[s.members[s.phase.i]];
            var answer := CommitAnswer(n, s.phase.id);
      answer.Answer? ==> Contains(n.store, Before(s)) && answer.text == Reply(s.phase.after.cmd, n.store)
  {
    SendingFacts(s);
    var n, id := s.nodes[s.members[s.phase.i]], s.phase.id;
    NodeFacts(false, s, s.members[s.phase.i]);
    assert id in DiskRecords(s) && DiskRecords(s)[id].status == COMMIT;
    assert s.cmds[id] == s.phase.after.cmd;
    assert Contains(n.store, Before(s));
    hide Agree, CommitAnswer, Contains, Before, Committed;
    AnswerText(n, id);
  }

  lemma CommitCollects(s: Sys, o: Outcome)
    requires WF(s) && s.phase.Sending? && s.phase.commit && Calls(s)
    ensures var t := CommitCall(s, o);
            var answer := CommitAnswer(s.nodes[s.members[s.phase.i]], s.phase.id);
      && t.disk == s.disk && t.base == s.base && t.first == s.first && t.cmds == s.cmds && t.commits == s.commits
      && (|| t.phase == s.phase
          || (answer.Answer? &&
              t.phase == s.phase.(i := s.phase.i + 1, ret := if s.phase.ret == "" then answer.text else s.phase.ret)))
  {
    hide Commit, CommitAnswer, Erase, WF;
  }

  lemma {:induction false} CommitKeepsCollected(s: Sys, o: Outcome)
    requires Agree(false, s) && Collected(s) && s.phase.Sending? && s.phase.commit && Calls(s)
    ensures Collected(CommitCall(s, o))
  {
    assert WF(s) && 0 < DiskNext(s);
    CommitCollects(s, o);
    var t := CommitCall(s, o);
    hide Agree, CommitCall, CommitAnswer, WF, Before, Committed, Contains;
    SameCommitted(s, t);
    if s.phase.after.Client? {
      CommitText(s);
    }
  }

  /** No other step is in, or gets into, the middle of such a loop. */
  ghost predicate NotCollecting(s: Sys) {
    s.phase.Sending? && s.phase.commit && s.phase.after.Client? ==> s.phase.i == 0 && s.phase.ret == ""
  }

  lemma OtherCallCollects(s: Sys, o: Outcome)
    requires WF(s) && Calls(s) && !(s.phase.Sending? && s.phase.commit)
    ensures NotCollecting(DoCall(s, o))
  {
    hide WF, Snapshot.Encode, Snapshot.Recover, Insert, Remove, Erase, Abort, Prepare, SortedRecords, GetReply,
        CommitCall, UpToDate;
  }

  lemma OtherStepCollects(s: Sys, l: Label)
    requires WF(s) && Enabled(s, l) && !l.Call?
    ensures NotCollecting(Step(s, l))
  {
    hide WF, Appended, Absorb, Remove, SortedRecords, Replay, Remembered, DoCall;
  }

  lemma {:induction false} StepKeepsCollected(s: Sys, l: Label)
    requires Agree(false, s) && Collected(s)
    ensures Collected(Step(s, l))
  {
    assert WF(s);
    if Enabled(s, l) {
      hide Agree, WF, Before, Contains, DoLocal;
      if !l.Call? {
        OtherStepCollects(s, l);
      } else if s.phase.Sending? && s.phase.commit {
        CommitKeepsCollected(s, l.o);
      } else {
        OtherCallCollects(s, l.o);
      }
    }
  }

  lemma {:induction false} RunCollects(s: Sys, ls: seq<Label>)
    requires FirstStart(s) && SmallRun(ls)
    ensures Collected(Exec(s, ls))
    decreases |ls|
  {
    if ls == [] {
      assert Exec(s, ls) == s;
    } else {
      var n := |ls| - 1;
      LastStep(false, s, ls);
      hide Exec, Step, FirstStart, SmallRun, Agree, Collected;
      RunCollects(s, ls[..n]);
      RunKnown(s, ls[..n]);
      StepKeepsCollected(Exec(s, ls[..n]), ls[n]);
    }
  }

  /** A store that contains another holds at least as many of the listed keys. */
  lemma PresentInLarger(keys: seq<string>, st: Store, c: Store)
    requires Contains(st, c)
    ensures Present(keys, c) <= Present(keys, st)
  {
    SubsetSize(KeySet(keys) * c.Keys, KeySet(keys) * st.Keys);
  }

  lemma LocalReplies(s: Sys)
    requires WF(s) && s.phase.Sending? && s.phase.commit && s.phase.after.Client? && !Calls(s)
    ensures Step(s, Local).out == s.out + [s.phase.ret]
  {
    FinishedShape(s);
    hide Finished, Ascending;
  }

  lemma {:induction false} RepliesCollected(s: Sys) returns (st: Store)
    requires WF(s) && Collected(s) && s.phase.Sending? && s.phase.commit && s.phase.after.Client?
    requires !Calls(s) && s.members != []
    ensures Contains(st, Before(s)) && Step(s, Local).out == s.out + [Reply(s.phase.after.cmd, st)]
  {
    hide Step, WF, Before, Contains, Reply;
    LocalReplies(s);
    st :| Contains(st, Before(s)) && s.phase.ret == Reply(s.phase.after.cmd, st);
  }

  /**
   * Whatever crashes: a committed update that a member is left to answer replies with the reply of the
   * command on some store that contains the committed one before it. So a SET replies OK, and a DEL
   * counts at least the listed keys that were committed.
   */
  lemma {:induction false} UpdateInEveryRun(s: Sys, ls: seq<Label>) returns (st: Store)
    requires FirstStart(s) && SmallRun(ls)
    requires var t := Exec(s, ls);
      t.phase.Sending? && t.phase.commit && t.phase.after.Client? && !Calls(t) && t.members != []
    ensures var t := Exec(s, ls);
      && Contains(st, Before(t)) && Step(t, Local).out == t.out + [Reply(t.phase.after.cmd, st)]
      && (t.phase.after.cmd.Del? ==> Present(t.phase.after.cmd.keys, Before(t)) <= Present(t.phase.after.cmd.keys, st))
    ensures var t := Exec(s, ls);
      t.phase.after.cmd.Set? ==> Step(t, Local).out == t.out + ["+OK\r\n"]
  {
    RunCollects(s, ls);
    RunKnown(s, ls);
    var t := Exec(s, ls);
    assert WF(t);
    hide Exec, Step, FirstStart, SmallRun, Agree, Collected, WF, Before, Contains, Reply;
    st := RepliesCollected(t);
    ReplyText(t.phase.after.cmd, st);
    if t.phase.after.cmd.Del? {
      PresentInLarger(t.phase.after.cmd.keys, st, Before(t));
    }
  }
}
