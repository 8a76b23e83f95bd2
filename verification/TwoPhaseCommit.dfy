/** The main results about two-phase commit, over every run from a first start. */
module TwoPhaseCommit {
  import opened KeyValue
  import opened RecordLog
  import opened Participants
  import opened Protocol
  import opened Decisions
  import opened Agreement
  import Snapshot
  import opened Text

  /**
   * A coordinator that has never logged a command of this history and is about to start. Its log
   * ends with next id `first`. A participant is current, with the base store, or lags behind and
   * holds no key outside it.
   */
  ghost predicate FirstStart(s: Sys) {
    && WF(s) && s.phase.Down? && s.members == []
    && s.delKeys == {} && s.cmds == map[] && s.commits == {} && s.aborts == {} && s.sent == {}
    && 0 < DiskNext(s) == s.first && DiskRecords(s) == map[]
    && forall a :: a in s.nodes ==>
         && s.nodes[a].next <= s.first
         && (s.nodes[a].next == s.first ==> s.nodes[a].store == s.base)
         && s.nodes[a].store.Keys <= s.base.Keys
         && Snapshot.SmallStore(s.nodes[a].store)
         && (forall i :: i in s.nodes[a].pending ==> i < s.first)
         && s.nodes[a].applied == []
  }

  lemma FirstStartAgrees(s: Sys)
    requires FirstStart(s)
    ensures Agree(true, s) && Agree(false, s)
  {
    assert Committed(s) == s.base;
    assert NodesInv(s);
    assert Inv(s);
    forall a, strict | a in s.nodes
      ensures NodeAgrees(strict, s.nodes[a], DiskNext(s), StageOf(DiskRecords(s), DiskNext(s)), Committed(s),
          Before(s), Doomed(s))
    {
    }
  }

  /** t is reached from the first start s by a run whose crashes find clean stores. */
  ghost predicate CleanReach(s: Sys, ls: seq<Label>, t: Sys) {
    FirstStart(s) && SmallRun(ls) && CleanRun(s, ls) && WF(t) && t == Exec(s, ls)
  }

  lemma CleanReachAgrees(s: Sys, ls: seq<Label>, t: Sys)
    requires CleanReach(s, ls, t)
    ensures Agree(true, t)
  {
    FirstStartAgrees(s);
    RunAgrees(true, s, ls);
  }

  // ----- decisions, in every run, whatever crashes

  /** No id has both a COMMIT and an ABORT record; a decision RPC is only ever issued for a written decision. */
  lemma {:induction false} StableDecisions(s: Sys, ls: seq<Label>)
    requires FirstStart(s)
    ensures var t := Exec(s, ls);
      && t.commits !! t.aborts
      && (forall i :: (i, true) in t.sent ==> i in t.commits)
      && (forall i :: (i, false) in t.sent ==> i in t.aborts)
  {
    FirstStartAgrees(s);
    RunKeeps(s, ls);
  }

  lemma CommitSendHistory(s: Sys, o: Outcome)
    requires WF(s) && Calls(s) && s.phase.Sending? && s.phase.commit
    ensures CommitCall(s, o).commits == s.commits && CommitCall(s, o).sent == s.sent + {(s.phase.id, true)}
  {
    hide Commit, CommitAnswer, WF, Erase;
  }

  lemma AbortSendHistory(s: Sys, o: Outcome)
    requires WF(s) && Calls(s) && s.phase.Sending? && !s.phase.commit
    ensures AbortCall(s, o).commits == s.commits && AbortCall(s, o).sent == s.sent + {(s.phase.id, false)}
  {
    hide Abort, WF, Erase;
  }

  lemma {:induction false} SendHistory(s: Sys, o: Outcome)
    requires WF(s) && Calls(s) && s.phase.Sending?
    ensures DoCall(s, o).commits == s.commits
    ensures DoCall(s, o).sent == s.sent + {(s.phase.id, s.phase.commit)}
  {
    hide CommitCall, AbortCall, WF;
    if s.phase.commit {
      CommitSendHistory(s, o);
    } else {
      AbortSendHistory(s, o);
    }
  }

  lemma AdmitHistory(s: Sys, o: Outcome)
    requires WF(s) && Calls(s) && (s.phase.Asking? || s.phase.Renumbering?)
    ensures DoCall(s, o).commits == s.commits && DoCall(s, o).sent == s.sent
  {
    hide WF, SortedRecords, Insert;
  }

  lemma PrepareHistory(s: Sys, o: Outcome)
    requires WF(s) && Calls(s) && s.phase.Preparing?
    ensures DoCall(s, o).commits == s.commits && DoCall(s, o).sent == s.sent
  {
    hide WF, Prepare, Erase;
  }

  lemma ReadHistory(s: Sys, o: Outcome)
    requires WF(s) && Calls(s) && (s.phase.Getting? || s.phase.Fetching?)
    ensures DoCall(s, o).commits == s.commits && DoCall(s, o).sent == s.sent
  {
    hide WF, Snapshot.Encode, Erase, GetReply;
  }

  lemma RestoreHistory(s: Sys, o: Outcome)
    requires WF(s) && Calls(s) && (s.phase.Restoring? || s.phase.Starting?)
    ensures DoCall(s, o).commits == s.commits && DoCall(s, o).sent == s.sent
  {
    hide WF, Snapshot.Recover, Insert, Remove;
  }

  lemma {:induction false} CallHistory(s: Sys, o: Outcome)
    requires WF(s) && Calls(s)
    ensures DoCall(s, o).commits == s.commits
    ensures DoCall(s, o).sent == if s.phase.Sending? then s.sent + {(s.phase.id, s.phase.commit)} else s.sent
  {
    hide DoCall, WF;
    if s.phase.Sending? {
      SendHistory(s, o);
    } else if s.phase.Asking? || s.phase.Renumbering? {
      AdmitHistory(s, o);
    } else if s.phase.Preparing? {
      PrepareHistory(s, o);
    } else if s.phase.Getting? || s.phase.Fetching? {
      ReadHistory(s, o);
    } else {
      RestoreHistory(s, o);
    }
  }

  lemma FinishedHistory(s: Sys)
    requires s.phase.Sending?
    ensures Finished(s).sent == s.sent && Finished(s).commits == s.commits
  {
    hide Appended, Absorb, Remembered;
  }

  lemma {:induction false} LocalHistory(s: Sys)
    ensures DoLocal(s).sent == s.sent
    ensures !s.phase.Preparing? && !s.phase.Unfinished? ==> DoLocal(s).commits == s.commits
  {
    hide Appended, Absorb, SortedRecords, WF, Finished;
    if s.phase.Sending? {
      FinishedHistory(s);
    }
  }

  lemma UnfinishedHistory(s: Sys)
    requires Inv(s)
    ensures s.phase.Unfinished? ==> DoLocal(s).commits == s.commits
  {
    if s.phase.Unfinished? && s.phase.todo != [] {
      assert s.phase.todo[0].id in DiskRecords(s);
    }
  }

  lemma RestHistory(s: Sys, l: Label)
    requires !l.Call? && !l.Local?
    ensures Step(s, l).sent == s.sent && Step(s, l).commits == s.commits
  {
  }

  /** The step that issues a decision RPC finds that decision already on record. */
  lemma {:induction false} WrittenBeforeSent(s: Sys, l: Label, id: nat, commit: bool)
    requires Inv(s)
    requires (id, commit) in Step(s, l).sent && (id, commit) !in s.sent
    ensures if commit then id in s.commits else id in s.aborts
  {
    if l.Local? {
      LocalHistory(s);
    } else if l.Call? {
      assert Enabled(s, l);
      CallHistory(s, l.o);
      assert s.phase.id in DiskRecords(s);
    } else {
      RestHistory(s, l);
    }
  }

  /** A COMMIT record for a new id is written only with members left, each of which prepared that id. */
  lemma {:induction false} CommitOnlyPrepared(s: Sys, l: Label, id: nat)
    requires Inv(s)
    requires id in Step(s, l).commits && id !in s.commits
    ensures s.phase.Preparing? && s.phase.id == id && s.members != []
    ensures forall a :: a in s.members ==>
              id in s.nodes[a].pending && id in s.cmds && s.nodes[a].next == id &&
              s.nodes[a].pending[id] == s.cmds[id] == s.phase.cmd
  {
    if l.Local? {
      LocalHistory(s);
      UnfinishedHistory(s);
      PreparedMembers(s, id);
    } else if l.Call? {
      assert Enabled(s, l);
      CallHistory(s, l.o);
    } else {
      RestHistory(s, l);
    }
  }

  lemma PreparedMembers(s: Sys, id: nat)
    requires Inv(s) && s.phase.Preparing? && Enabled(s, Local)
    requires id in Decided(s).commits && id !in s.commits
    ensures s.phase.id == id && s.members != []
    ensures forall a :: a in s.members ==>
              id in s.nodes[a].pending && id in s.cmds && s.nodes[a].next == id &&
              s.nodes[a].pending[id] == s.cmds[id] == s.phase.cmd
  {
    assert s.phase.id in DiskRecords(s);
    forall a | a in s.members
      ensures id in s.nodes[a].pending && id in s.cmds && s.nodes[a].next == id &&
              s.nodes[a].pending[id] == s.cmds[id] == s.phase.cmd
    {
      var j :| 0 <= j < |s.members| && s.members[j] == a;
      assert NodeInv(s.nodes[a], DiskNext(s), s.first, s.cmds, s.commits);
    }
  }

  /** With the mutex free: at most the latest request is unfinished, and none while there are members. */
  lemma {:induction false} OneUnfinishedRequest(s: Sys, ls: seq<Label>)
    requires FirstStart(s)
    ensures var t := Exec(s, ls);
      && !t.phase.AssertFailed?
      && (t.phase.Idle? ==>
            && (forall i :: i in t.records ==> i + 1 == t.next && t.records[i].id == i)
            && (t.members != [] ==> t.records == map[]))
  {
    FirstStartAgrees(s);
    RunKeeps(s, ls);
  }

  /** After a restart the log still gives the next id, never 0. */
  lemma {:induction false} RestartKeepsNextId(s: Sys, ls: seq<Label>)
    requires FirstStart(s)
    ensures var t := Exec(s, ls);
      0 < LastNext(t.disk) && (!t.phase.Down? ==> LastNext(t.disk) == t.next && Replay(t.disk) == t.records)
  {
    FirstStartAgrees(s);
    RunKeeps(s, ls);
  }

  /** Each participant applies strictly increasing ids, each with the committed command of that id. */
  lemma {:induction false} InOrderApplication(s: Sys, ls: seq<Label>, a: Addr)
    requires FirstStart(s) && a in Exec(s, ls).nodes
    ensures var t := Exec(s, ls);
      var done := t.nodes[a].applied;
      && (forall j, k :: 0 <= j < k < |done| ==> done[j].0 < done[k].0)
      && (forall j :: 0 <= j < |done| ==>
            done[j].0 in t.commits && done[j].0 in t.cmds && t.cmds[done[j].0] == done[j].1)
  {
    FirstStartAgrees(s);
    RunKeeps(s, ls);
    var t := Exec(s, ls);
    assert NodeInv(t.nodes[a], DiskNext(t), t.first, t.cmds, t.commits);
  }

  /** COMMIT never finds an empty pending set where it looks into it, and never an id of the future. */
  lemma {:induction false} CommitHandlerIsSafe(s: Sys, ls: seq<Label>)
    requires FirstStart(s)
    ensures var t := Exec(s, ls);
      t.phase.Sending? && t.phase.commit && Calls(t) ==>
        var n := t.nodes[t.members[t.phase.i]];
        n.next >= t.phase.id && !CommitAnswer(n, t.phase.id).Undefined?
  {
    FirstStartAgrees(s);
    RunKeeps(s, ls);
    var t := Exec(s, ls);
    if t.phase.Sending? && t.phase.commit && Calls(t) {
      var n := t.nodes[t.members[t.phase.i]];
      assert Awaits(n, t.phase.id, true, t.phase.after.Client?);
    }
  }

  // ----- stores

  /** With the mutex free, every member is current and its store is the committed store. */
  lemma {:induction false} ReplicaAgreement(s: Sys, ls: seq<Label>)
    requires FirstStart(s) && SmallRun(ls) && CleanRun(s, ls)
    ensures var t := Exec(s, ls);
      t.phase.Idle? ==> forall a :: a in t.members ==>
        t.nodes[a].next == t.next && t.nodes[a].store == Committed(t)
  {
    FirstStartAgrees(s);
    RunAgrees(true, s, ls);
    var t := Exec(s, ls);
    if t.phase.Idle? {
      forall a | a in t.members ensures t.nodes[a].next == t.next && t.nodes[a].store == Committed(t) {
        NodeFacts(true, t, a);
      }
    }
  }

  /** In one lifetime of the coordinator there is no further condition. */
  lemma {:induction false} LifetimeAgreement(s: Sys, ls: seq<Label>)
    requires FirstStart(s) && SmallRun(ls) && Crash !in ls
    ensures var t := Exec(s, ls);
      t.phase.Idle? ==> forall a :: a in t.members ==>
        t.nodes[a].next == t.next && t.nodes[a].store == Committed(t)
  {
    ReplicaAgreement(s, ls);
  }

  /** Across any crashes and restarts no committed write is lost: every member still holds all of them. */
  lemma {:induction false} NoLostWrites(s: Sys, ls: seq<Label>)
    requires FirstStart(s) && SmallRun(ls)
    ensures var t := Exec(s, ls);
      t.phase.Idle? ==> forall a, k :: a in t.members && k in Committed(t) ==>
        k in t.nodes[a].store && t.nodes[a].store[k] == Committed(t)[k]
  {
    FirstStartAgrees(s);
    RunAgrees(false, s, ls);
    var t := Exec(s, ls);
    if t.phase.Idle? {
      forall a | a in t.members ensures Contains(t.nodes[a].store, Committed(t)) {
        NodeFacts(false, t, a);
      }
    }
  }

  /** Every key a participant holds beyond the committed store is one a recovery would delete. */
  lemma {:induction false} DelKeysCover(s: Sys, ls: seq<Label>)
    requires FirstStart(s) && SmallRun(ls) && CleanRun(s, ls)
    ensures var t := Exec(s, ls);
      t.phase.Idle? ==> forall a, k :: a in t.nodes && k in t.nodes[a].store && k !in Committed(t) ==> k in t.delKeys
  {
    FirstStartAgrees(s);
    RunAgrees(true, s, ls);
    var t := Exec(s, ls);
    if t.phase.Idle? {
      forall a | a in t.nodes ensures t.nodes[a].store.Keys <= Committed(t).Keys + t.delKeys {
        NodeFacts(true, t, a);
      }
    }
  }

  lemma RestoredStore(s: Sys, o: Outcome, r: Snapshot.Installed)
    requires WF(s) && s.phase.Restoring? && (o.Done? || o.Lost?)
    requires r == Snapshot.Recover(s.phase.snapshot, s.delKeys, s.nodes[s.phase.a].store) && r.Recovered?
    ensures var t := Step(s, Call(o));
      && t.nodes == s.nodes[s.phase.a := s.nodes[s.phase.a].(store := r.store)]
      && t.members == s.members
      && t.phase == if o.Done? then Renumbering(s.phase.a) else Idle
  {
  }

  /**
   * RECOVER reads the snapshot to its end, and in state t the participant being recovered has the first
   * member's store, which is the committed one.
   */
  ghost predicate RecoversExactly(s: Sys, t: Sys, o: Outcome)
    requires s.phase.Restoring?
  {
    && s.members != [] && s.members[0] in s.nodes && s.phase.a in s.nodes && s.phase.a in t.nodes
    && Snapshot.Recover(s.phase.snapshot, s.delKeys, s.nodes[s.phase.a].store).Recovered?
    && t.nodes[s.phase.a].store == s.nodes[s.members[0]].store == Committed(s)
    && t.phase == if o.Done? then Renumbering(s.phase.a) else Idle
  }

  /** An executed RECOVER never meets malformed bytes and leaves exactly the donor's store, which is the committed one. */
  lemma {:induction false} RecoveryIsExact(s: Sys, ls: seq<Label>, t: Sys, o: Outcome)
    requires CleanReach(s, ls, t) && t.phase.Restoring? && (o.Done? || o.Lost?)
    ensures RecoversExactly(t, Step(t, Call(o)), o)
  {
    CleanReachAgrees(s, ls, t);
    ExactStep(t, o);
  }

  lemma DonorMatches(s: Sys)
    requires Agree(true, s) && s.phase.Restoring?
    ensures s.nodes[s.members[0]].store == Committed(s)
  {
    assert s.members[0] in s.members;
    NodeFacts(true, s, s.members[0]);
  }

  lemma {:induction false} ExactStep(s: Sys, o: Outcome)
    requires Agree(true, s) && s.phase.Restoring? && (o.Done? || o.Lost?)
    ensures RecoversExactly(s, Step(s, Call(o)), o)
  {
    DonorMatches(s);
    RecoveredMatches(true, s);
    RestoredStore(s, o, Snapshot.Recover(s.phase.snapshot, s.delKeys, s.nodes[s.phase.a].store));
  }

  // ----- replies

  lemma ServedByCommitted(s: Sys)
    requires Agree(true, s) && s.phase.Getting?
    ensures s.members[0] in s.nodes && s.nodes[s.members[0]].store == Committed(s)
  {
    assert s.members[0] in s.members;
    NodeFacts(true, s, s.members[0]);
  }

  lemma GetAnswered(s: Sys)
    requires WF(s) && s.phase.Getting?
    ensures var a := s.members[0];
      a in s.members && a in s.nodes &&
      Step(s, Call(Done)).out == s.out + [GetReply(s.nodes[a].store, s.phase.key)]
  {
    assert s.members[0] in s.members;
  }

  /** A GET that is answered reads the committed store, whichever member serves it. */
  lemma {:induction false} GetReadsCommitted(s: Sys, ls: seq<Label>)
    requires FirstStart(s) && SmallRun(ls) && CleanRun(s, ls)
    ensures var t := Exec(s, ls);
      t.phase.Getting? ==>
        Step(t, Call(Done)).out == t.out + [GetReply(Committed(t), t.phase.key)]
  {
    FirstStartAgrees(s);
    RunAgrees(true, s, ls);
    var t := Exec(s, ls);
    assert WF(t);
    hide Exec, Step, Agree, WF, Committed;
    if t.phase.Getting? {
      ServedByCommitted(t);
      GetAnswered(t);
    }
  }

  /** The text that the decision loop has collected when it is through. */
  lemma CollectedReply(s: Sys)
    requires Agree(true, s) && s.phase.Sending? && !Calls(s) && s.phase.commit && s.phase.after.Client?
    ensures s.phase.ret == if s.members == [] then "" else Reply(s.phase.after.cmd, Before(s))
  {
  }

  lemma FinishedShape(s: Sys)
    requires s.phase.Sending?
    ensures var t := Finished(s);
      && t.members == s.members
      && t.out == s.out + (if s.phase.after.Rest? then [] else [if s.phase.commit then s.phase.ret else ERROR_REPLY])
      && t.phase == if s.phase.after.Rest? then Unfinished(s.phase.after.todo) else Idle
  {
    hide Appended, Absorb, Remembered;
  }

  lemma {:induction false} UpdateReplyAt(s: Sys)
    requires Agree(true, s) && s.phase.Sending? && s.phase.after.Client? && !Calls(s)
    ensures Step(s, Local).out == s.out +
              [if !s.phase.commit then ERROR_REPLY
               else if s.members == [] then ""
               else Reply(s.phase.after.cmd, Before(s))]
  {
    assert WF(s) && Step(s, Local) == Finished(s);
    if s.phase.commit {
      CollectedReply(s);
    }
    hide Agree, WF, Step, Finished, Reply, Before, Committed;
    FinishedShape(s);
  }

  /** The reply to a committed update is that of the command on the store before it. */
  lemma {:induction false} UpdateReply(s: Sys, ls: seq<Label>)
    requires FirstStart(s) && SmallRun(ls) && CleanRun(s, ls)
    ensures var t := Exec(s, ls);
      t.phase.Sending? && t.phase.after.Client? && !Calls(t) ==>
        Step(t, Local).out == t.out +
          [if !t.phase.commit then ERROR_REPLY
           else if t.members == [] then ""
           else Reply(t.phase.after.cmd, Before(t))]
  {
    hide NodesAgree, CleanRun, SmallRun;
    FirstStartAgrees(s);
    RunAgrees(true, s, ls);
    var t := Exec(s, ls);
    if t.phase.Sending? && t.phase.after.Client? && !Calls(t) {
      UpdateReplyAt(t);
    }
  }

  /**
   * ... in the words of the client: "+OK" for a committed SET; for a committed DEL the number of distinct
   * listed keys that were committed before it, or the error if there were none; and the error for an
   * update that is aborted.
   */
  lemma {:induction false} UpdateReplyText(s: Sys, ls: seq<Label>)
    requires FirstStart(s) && SmallRun(ls) && CleanRun(s, ls)
    requires var t := Exec(s, ls); t.phase.Sending? && t.phase.after.Client? && !Calls(t)
    ensures var t := Exec(s, ls);
      var cmd := t.phase.after.cmd;
      && (!t.phase.commit ==> Step(t, Local).out == t.out + ["-ERROR\r\n"])
      && (t.phase.commit && t.members == [] ==> Step(t, Local).out == t.out + [""])
      && (t.phase.commit && t.members != [] && cmd.Set? ==> Step(t, Local).out == t.out + ["+OK\r\n"])
      && (t.phase.commit && t.members != [] && cmd.Del? ==>
            var n := |set k | k in cmd.keys && k in Before(t)|;
            Step(t, Local).out == t.out + [if n == 0 then "-ERROR\r\n" else ":" + Decimal(n) + "\r\n"])
  {
    UpdateReply(s, ls);
    var t := Exec(s, ls);
    hide FirstStart, SmallRun, CleanRun, Exec, Step, Before, Reply;
    ReplyText(t.phase.after.cmd, Before(t));
  }
}
