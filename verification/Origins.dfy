/**
 * The upper bound on what participants hold, in every run with any crashes: no data that was never
 * committed, and no surplus key that a committed DEL did not remove.
 */
module Origins {
  import opened KeyValue
  import opened RecordLog
  import opened Participants
  import opened Protocol
  import opened Decisions
  import opened Agreement
  import opened TwoPhaseCommit
  import Snapshot

  /** A committed SET wrote the pair. */
  ghost predicate Written(cmds: map<nat, Command>, commits: set<nat>, k: string, v: string) {
    exists i :: i in commits && i in cmds && cmds[i] == Set(k, v)
  }

  /** Some participant held the pair when the history started. */
  ghost predicate Inherited(start: map<Addr, Node>, k: string, v: string) {
    exists b :: b in start && k in start[b].store && start[b].store[k] == v
  }

  ghost predicate StoreKnown(start: map<Addr, Node>, cmds: map<nat, Command>, commits: set<nat>, st: Store) {
    forall k :: k in st ==> Inherited(start, k, st[k]) || Written(cmds, commits, k, st[k])
  }

  /** The invariant, for participants that were in the states `start` when the history started. */
  ghost predicate Known(start: map<Addr, Node>, s: Sys) {
    forall a :: a in s.nodes ==> StoreKnown(start, s.cmds, s.commits, s.nodes[a].store)
  }

  /** Commits are only added, and committed commands stay. */
  ghost predicate Grows(s: Sys, t: Sys) {
    && t.base == s.base && t.first == s.first && s.commits <= t.commits
    && forall i :: i in s.commits && i in s.cmds ==> i in t.cmds && t.cmds[i] == s.cmds[i]
  }

  lemma StoreStaysKnown(start: map<Addr, Node>, s: Sys, t: Sys, st: Store)
    requires StoreKnown(start, s.cmds, s.commits, st) && Grows(s, t)
    ensures StoreKnown(start, t.cmds, t.commits, st)
  {
    forall k | k in st ensures Inherited(start, k, st[k]) || Written(t.cmds, t.commits, k, st[k]) {
      if Written(s.cmds, s.commits, k, st[k]) {
        var i :| i in s.commits && i in s.cmds && s.cmds[i] == Set(k, st[k]);
        assert i in t.commits && i in t.cmds && t.cmds[i] == Set(k, st[k]);
      }
    }
  }

  lemma ApplyKnown(start: map<Addr, Node>, cmds: map<nat, Command>, commits: set<nat>, id: nat, st: Store)
    requires StoreKnown(start, cmds, commits, st) && id in commits && id in cmds
    ensures StoreKnown(start, cmds, commits, Apply(cmds[id], st))
  {
  }

  lemma OverlayKnown(start: map<Addr, Node>, cmds: map<nat, Command>, commits: set<nat>, st: Store,
      dels: set<string>, donor: Store)
    requires StoreKnown(start, cmds, commits, st) && StoreKnown(start, cmds, commits, donor)
    ensures StoreKnown(start, cmds, commits, (st - dels) + donor)
  {
  }

  // ----- the steps that change a store

  /** At most one participant changes, to a store whose data is known. */
  lemma TouchKnown(start: map<Addr, Node>, s: Sys, t: Sys, a: Addr, n: Node)
    requires Known(start, s) && StoreKnown(start, s.cmds, s.commits, n.store)
    requires t.nodes == s.nodes || t.nodes == s.nodes[a := n]
    requires t.cmds == s.cmds && t.commits == s.commits && t.base == s.base && t.first == s.first
    ensures Known(start, t) && Grows(s, t)
  {
    hide StoreKnown;
  }

  lemma CommitChanges(s: Sys, o: Outcome)
    requires WF(s) && s.phase.Sending? && s.phase.commit && Calls(s)
    ensures var t := CommitCall(s, o);
            var a := s.members[s.phase.i];
      && (t.nodes == s.nodes || t.nodes == s.nodes[a := Commit(s.nodes[a], s.phase.id)])
      && t.cmds == s.cmds && t.commits == s.commits && t.base == s.base && t.first == s.first
  {
    hide Commit, CommitAnswer, Erase, WF;
  }

  lemma {:induction false} CommittedKnown(start: map<Addr, Node>, s: Sys)
    requires Inv(s) && Known(start, s) && s.phase.Sending? && s.phase.commit && Calls(s)
    ensures StoreKnown(start, s.cmds, s.commits, Commit(s.nodes[s.members[s.phase.i]], s.phase.id).store)
  {
    SendingFacts(s);
    var n := s.nodes[s.members[s.phase.i]];
    assert StoreKnown(start, s.cmds, s.commits, n.store);
    hide Inv, StoreKnown, WF;
    ApplyKnown(start, s.cmds, s.commits, s.phase.id, n.store);
  }

  lemma {:induction false} CommitKnown(start: map<Addr, Node>, s: Sys, o: Outcome)
    requires Inv(s) && Known(start, s) && s.phase.Sending? && s.phase.commit && Calls(s)
    ensures Known(start, CommitCall(s, o)) && Grows(s, CommitCall(s, o))
  {
    assert WF(s);
    hide Inv, Commit, StoreKnown, CommitCall, WF, Known, Grows;
    CommittedKnown(start, s);
    CommitChanges(s, o);
    var a := s.members[s.phase.i];
    TouchKnown(start, s, CommitCall(s, o), a, Commit(s.nodes[a], s.phase.id));
  }

  lemma RestoreChanges(s: Sys, o: Outcome)
    requires WF(s) && s.phase.Restoring?
    ensures var t := RestoreCall(s, o);
            var a := s.phase.a;
      && (t.nodes == s.nodes || t.nodes == s.nodes[a := Participants.Recover(s.nodes[a], s.phase.snapshot, s.delKeys)])
      && t.cmds == s.cmds && t.commits == s.commits && t.base == s.base && t.first == s.first
  {
    hide Participants.Recover, Snapshot.Recover, WF;
  }

  lemma {:induction false} RecoveredKnown(start: map<Addr, Node>, s: Sys)
    requires Agree(false, s) && Known(start, s) && s.phase.Restoring?
    ensures StoreKnown(start, s.cmds, s.commits, Participants.Recover(s.nodes[s.phase.a], s.phase.snapshot,
        s.delKeys).store)
  {
    var st, donor := s.nodes[s.phase.a].store, s.nodes[s.members[0]].store;
    assert s.members[0] in s.members;
    NodeFacts(false, s, s.members[0]);
    hide Agree, StoreKnown;
    Snapshot.RecoverRoundTrip(donor, s.delKeys, st);
    OverlayKnown(start, s.cmds, s.commits, st, s.delKeys, donor);
  }

  lemma {:induction false} RestoreKnown(start: map<Addr, Node>, s: Sys, o: Outcome)
    requires Agree(false, s) && Known(start, s) && s.phase.Restoring?
    ensures Known(start, RestoreCall(s, o)) && Grows(s, RestoreCall(s, o))
  {
    assert WF(s);
    hide Inv, Agree, Participants.Recover, StoreKnown, RestoreCall, WF, Known, Grows;
    RecoveredKnown(start, s);
    RestoreChanges(s, o);
    var a := s.phase.a;
    TouchKnown(start, s, RestoreCall(s, o), a, Participants.Recover(s.nodes[a], s.phase.snapshot, s.delKeys));
  }

  // ----- the steps that change none

  ghost predicate SameStores(s: Sys, t: Sys) {
    && Grows(s, t) && t.nodes.Keys == s.nodes.Keys
    && forall a :: a in s.nodes ==> t.nodes[a].store == s.nodes[a].store
  }

  lemma SameKnown(start: map<Addr, Node>, s: Sys, t: Sys)
    requires Known(start, s) && SameStores(s, t)
    ensures Known(start, t)
  {
    forall a | a in t.nodes ensures StoreKnown(start, t.cmds, t.commits, t.nodes[a].store) {
      StoreStaysKnown(start, s, t, s.nodes[a].store);
    }
  }

  lemma AbortStores(s: Sys, o: Outcome)
    requires WF(s) && Calls(s) && s.phase.Sending? && !s.phase.commit
    ensures SameStores(s, DoCall(s, o))
  {
    assert s.members[s.phase.i] in s.members;
    hide Ascending, Erase, DropFirst;
  }

  lemma PrepareStores(s: Sys, o: Outcome)
    requires WF(s) && Calls(s) && s.phase.Preparing?
    ensures SameStores(s, DoCall(s, o))
  {
    assert s.members[s.phase.i] in s.members;
    hide Ascending, Erase;
  }

  lemma AdmitStores(s: Sys, o: Outcome)
    requires WF(s) && Calls(s) && (s.phase.Asking? || s.phase.Renumbering?)
    ensures SameStores(s, DoCall(s, o))
  {
    hide Ascending, SortedRecords, Insert;
  }

  lemma ReadStores(s: Sys, o: Outcome)
    requires WF(s) && Calls(s) && (s.phase.Getting? || s.phase.Fetching? || s.phase.Starting?)
    ensures SameStores(s, DoCall(s, o))
  {
    hide WF, Snapshot.Encode, Insert, Remove, Erase, GetReply;
  }

  lemma DecideStores(s: Sys, id: nat, commit: bool, after: After)
    ensures SameStores(s, Decide(s, id, commit, after))
  {
    hide Appended, Absorb;
  }

  lemma FinishedStores(s: Sys)
    requires s.phase.Sending?
    ensures SameStores(s, Finished(s))
  {
    hide Appended, Absorb, Remembered;
  }

  lemma {:induction false} LocalStores(s: Sys)
    requires WF(s) && Enabled(s, Local)
    ensures SameStores(s, DoLocal(s))
  {
    hide WF, Decide, Finished, SortedRecords;
    match s.phase
    case Preparing(id, cmd, _, ok) => DecideStores(s, id, ok, Client(cmd));
    case Sending(_, _, _, _, _) => FinishedStores(s);
    case Unfinished(todo) =>
      if todo != [] {
        DecideStores(s, todo[0].id, false, Rest(todo[1..]));
        DecideStores(s, todo[0].id, true, Rest(todo[1..]));
      }
    case _ =>
  }

  lemma UpdateStores(s: Sys, cmd: Command)
    requires WF(s) && s.phase.Idle? && s.next !in s.commits
    ensures SameStores(s, BeginUpdate(s, cmd))
  {
    hide WF, Appended, Absorb;
  }

  lemma MemoryStores(s: Sys, l: Label)
    requires WF(s) && Enabled(s, l) && !l.Call? && !l.Local? && !l.Update?
    ensures SameStores(s, Step(s, l))
  {
    hide WF, Remove, Replay, LastNext, BeginUpdate, DoCall, DoLocal;
  }

  lemma {:induction false} OtherStores(s: Sys, l: Label)
    requires Inv(s) && Enabled(s, l) && !l.Call? && !l.Local?
    ensures SameStores(s, Step(s, l))
  {
    if l.Update? {
      assert s.next !in s.commits;
      UpdateStores(s, l.cmd);
    } else {
      MemoryStores(s, l);
    }
  }

  lemma {:induction false} CallKnown(start: map<Addr, Node>, s: Sys, o: Outcome)
    requires Agree(false, s) && Known(start, s) && Enabled(s, Call(o))
    ensures Known(start, DoCall(s, o)) && Grows(s, DoCall(s, o))
  {
    assert WF(s);
    hide Agree, Known, SameStores, Grows, WF;
    if s.phase.Sending? && s.phase.commit {
      CommitKnown(start, s, o);
    } else if s.phase.Restoring? {
      RestoreKnown(start, s, o);
    } else {
      if s.phase.Sending? {
        AbortStores(s, o);
      } else if s.phase.Preparing? {
        PrepareStores(s, o);
      } else if s.phase.Asking? || s.phase.Renumbering? {
        AdmitStores(s, o);
      } else {
        ReadStores(s, o);
      }
      SameKnown(start, s, DoCall(s, o));
      SameGrows(s, DoCall(s, o));
    }
  }

  lemma SameGrows(s: Sys, t: Sys)
    requires SameStores(s, t)
    ensures Grows(s, t)
  {
  }

  lemma {:induction false} StepKnown(start: map<Addr, Node>, s: Sys, l: Label)
    requires Agree(false, s) && Known(start, s)
    ensures Known(start, Step(s, l)) && Grows(s, Step(s, l))
  {
    if Enabled(s, l) {
      if l.Call? {
        CallKnown(start, s, l.o);
      } else {
        if l.Local? {
          LocalStores(s);
        } else {
          OtherStores(s, l);
        }
        SameKnown(start, s, Step(s, l));
      }
    }
  }

  lemma {:induction false} RunKnown(s: Sys, ls: seq<Label>)
    requires FirstStart(s) && SmallRun(ls)
    ensures Known(s.nodes, Exec(s, ls)) && Exec(s, ls).base == s.base && Exec(s, ls).first == s.first
    ensures Agree(false, Exec(s, ls))
    decreases |ls|
  {
    FirstStartAgrees(s);
    if ls == [] {
      forall a, k | a in s.nodes && k in s.nodes[a].store ensures Inherited(s.nodes, k, s.nodes[a].store[k]) {
      }
    } else {
      var n := |ls| - 1;
      LastStep(false, s, ls);
      hide Exec, Step, FirstStart, SmallRun, Agree, Known;
      RunKnown(s, ls[..n]);
      StepKnown(s.nodes, Exec(s, ls[..n]), ls[n]);
      StepAgrees(false, Exec(s, ls[..n]), ls[n]);
    }
  }

  // ----- the main results

  /** Whatever crashes: a pair that a participant holds was there at the start, or a committed SET wrote it. */
  lemma {:induction false} OnlyCommittedData(s: Sys, ls: seq<Label>, a: Addr, k: string)
    requires FirstStart(s) && SmallRun(ls)
    requires a in Exec(s, ls).nodes && k in Exec(s, ls).nodes[a].store
    ensures var t := Exec(s, ls);
            var v := t.nodes[a].store[k];
      Inherited(s.nodes, k, v) || Written(t.cmds, t.commits, k, v)
  {
    RunKnown(s, ls);
    var t := Exec(s, ls);
    assert StoreKnown(s.nodes, t.cmds, t.commits, t.nodes[a].store);
  }

  ghost predicate Deletes(cmds: map<nat, Command>, commits: set<nat>, i: nat, k: string) {
    i in commits && i in cmds && cmds[i].Del? && k in cmds[i].keys
  }

  /** A key that was in the committed store once and is not any more was deleted in between. */
  lemma {:induction false} FoldLoses(base: Store, cmds: map<nat, Command>, commits: set<nat>, lo: nat, mid: nat,
      hi: nat, k: string)
    requires mid <= hi && k in Fold(base, cmds, commits, lo, mid) && k !in Fold(base, cmds, commits, lo, hi)
    ensures exists i :: mid <= i < hi && Deletes(cmds, commits, i, k)
    decreases hi
  {
    if hi > lo && mid < hi && k !in Fold(base, cmds, commits, lo, hi - 1) {
      FoldLoses(base, cmds, commits, lo, mid, hi - 1, k);
    } else {
      assert Deletes(cmds, commits, hi - 1, k);
    }
  }

  /** A key of the base store, or of a committed SET, that the committed store does not hold. */
  lemma {:induction false} LostKey(s: Sys, k: string, v: string)
    requires LogInv(s) && k !in Committed(s)
    requires k in s.base || Written(s.cmds, s.commits, k, v)
    ensures exists i :: Deletes(s.cmds, s.commits, i, k)
  {
    if k in s.base {
      FoldLoses(s.base, s.cmds, s.commits, s.first, s.first, DiskNext(s), k);
    } else {
      var i :| i in s.commits && i in s.cmds && s.cmds[i] == Set(k, v);
      assert k in Fold(s.base, s.cmds, s.commits, s.first, i + 1);
      FoldLoses(s.base, s.cmds, s.commits, s.first, i + 1, DiskNext(s), k);
    }
  }

  lemma InheritedInBase(s: Sys, k: string, v: string)
    requires FirstStart(s) && Inherited(s.nodes, k, v)
    ensures k in s.base
  {
  }

  /** Whatever crashes: a key that a participant holds and the committed store does not was deleted by a committed DEL. */
  lemma {:induction false} SurplusWasDeleted(s: Sys, ls: seq<Label>, a: Addr, k: string)
    requires FirstStart(s) && SmallRun(ls)
    requires a in Exec(s, ls).nodes && k in Exec(s, ls).nodes[a].store && k !in Committed(Exec(s, ls))
    ensures var t := Exec(s, ls);
      exists i :: Deletes(t.cmds, t.commits, i, k)
  {
    var t := Exec(s, ls);
    var v := t.nodes[a].store[k];
    RunKnown(s, ls);
    assert LogInv(t);
    hide Exec, FirstStart, Agree, LogInv, Committed, Inherited, Written, Deletes, Known;
    OnlyCommittedData(s, ls, a, k);
    if Inherited(s.nodes, k, v) {
      InheritedInBase(s, k, v);
    }
    LostKey(t, k, v);
  }
}
