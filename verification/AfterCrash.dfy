/**
 * What a crash of the coordinator can cost, exactly. The participant that the log still calls
 * current decides: without one no participant is ever admitted again, and with one the stores stay
 * agreed in every run up to the next crash iff no participant holds a key that is not committed.
 */
module AfterCrash {
  import opened KeyValue
  import opened RecordLog
  import opened Participants
  import opened Protocol
  import opened Decisions
  import opened Agreement
  import opened RestartDivergence
  import Snapshot

  /** A participant whose next id is the one the log ends with: only such a one is admitted at a start. */
  ghost predicate Current(s: Sys, d: Addr) {
    d in s.nodes && s.nodes[d].next == DiskNext(s)
  }

  ghost predicate SomeCurrent(s: Sys) {
    exists d: Addr :: Current(s, d)
  }

  lemma SameCurrent(s: Sys, t: Sys)
    requires t.nodes == s.nodes && DiskNext(t) == DiskNext(s)
    ensures SomeCurrent(t) <==> SomeCurrent(s)
  {
    assert forall d: Addr :: Current(s, d) <==> Current(t, d);
  }

  // ----- without a current participant

  /** No id waits for a decision that was never made. */
  ghost predicate NoneOpen(s: Sys) {
    forall i :: i in DiskRecords(s) ==> DiskRecords(s)[i].status != UNRESOLVED
  }

  /** No members, none current, and no record that would let one in that is one id behind. */
  ghost predicate Stuck(s: Sys) {
    && Inv(s) && s.members == [] && !SomeCurrent(s)
    && match s.phase
       case Down => true
       case Starting(_) => true
       case Unfinished(todo) => todo == [] ==> NoneOpen(s)
       case Sending(_, _, _, _, after) => after.Rest?
       case Idle => NoneOpen(s)
       case Asking(_) => NoneOpen(s)
       case Fetching(_) => NoneOpen(s)
       case _ => false
  }

  /** A step that leaves log, participants and membership alone. */
  lemma StuckQuietly(s: Sys, t: Sys)
    requires Stuck(s) && Inv(t)
    requires t.disk == s.disk && t.nodes == s.nodes && t.members == []
    requires t.phase.Down? || t.phase.Starting? || ((t.phase.Idle? || t.phase.Asking? || t.phase.Fetching?) &&
        NoneOpen(s))
    ensures Stuck(t)
  {
    SameCurrent(s, t);
  }

  lemma StuckCalls(s: Sys, o: Outcome)
    requires Stuck(s) && Enabled(s, Call(o))
    ensures Stuck(DoCall(s, o))
  {
    CallKeeps(s, o);
    match s.phase
    case Starting(i) =>
      assert !Current(s, s.conf[i]);
      assert s.next !in s.records;
      StuckQuietly(s, StartCall(s, o));
    case Asking(a) =>
      assert !Current(s, a);
      StuckQuietly(s, AskCall(s, o));
    case _ =>
  }

  lemma StuckFinishes(s: Sys)
    requires Stuck(s) && s.phase.Sending? && Enabled(s, Local)
    ensures Stuck(DoLocal(s))
  {
    LocalKeeps(s);
    var t := DoLocal(s);
    assert s.phase.id in DiskRecords(s);
    assert t == s.(phase := Unfinished(s.phase.after.todo));
    hide Inv, Finished;
    SameCurrent(s, t);
  }

  /** Nothing is sent to anyone: settling a record without members writes its decision and no more. */
  lemma StuckSettles(s: Sys)
    requires Stuck(s) && s.phase.Unfinished? && Enabled(s, Local)
    ensures Stuck(DoLocal(s))
  {
    LocalKeeps(s);
    var t := DoLocal(s);
    if s.phase.todo != [] {
      var r := s.phase.todo[0];
      assert r.id in DiskRecords(s);
      LogFacts(s, Record(if r.status == COMMIT then COMMIT else ABORT, r.id, s.next));
    }
    SameCurrent(s, t);
  }

  lemma StuckStarts(s: Sys)
    requires Stuck(s) && s.phase.Starting?
    ensures Stuck(s.(phase := Unfinished(SortedRecords(s.records))))
  {
    StartedKeeps(s);
    SortedUnfinished(s);
    var t := s.(phase := Unfinished(SortedRecords(s.records)));
    SameCurrent(s, t);
  }

  lemma {:induction false} StuckStep(s: Sys, l: Label)
    requires Stuck(s)
    ensures Stuck(Step(s, l))
  {
    StepKeeps(s, l);
    if Enabled(s, l) {
      match l
      case Call(o) => StuckCalls(s, o);
      case Local =>
        if s.phase.Starting? {
          StuckStarts(s);
        } else if s.phase.Fetching? {
          StuckQuietly(s, DoLocal(s));
        } else if s.phase.Sending? {
          StuckFinishes(s);
        } else {
          StuckSettles(s);
        }
      case _ => StuckQuietly(s, Step(s, l));
    }
  }

  lemma {:induction false} StuckForever(s: Sys, ls: seq<Label>)
    requires Stuck(s)
    ensures Stuck(Exec(s, ls))
    decreases |ls|
  {
    assert Exec(s, []) == s;
    hide Stuck, Step;
    if ls == [] {
    } else {
      StuckForever(s, ls[..|ls| - 1]);
      StuckStep(Exec(s, ls[..|ls| - 1]), ls[|ls| - 1]);
    }
  }

  lemma CrashedIsStuck(s: Sys)
    requires Inv(s) && !SomeCurrent(s)
    ensures Stuck(DoCrash(s))
  {
    CrashKeeps(s);
    SameCurrent(s, DoCrash(s));
  }

  lemma CrashedIsStartable(s: Sys, d: Addr)
    requires Inv(s) && Current(s, d)
    ensures Startable(DoCrash(s), d)
  {
  }

  /** No run after a crash ever has a member again iff no participant was current at the crash. */
  lemma {:induction false} NoMemberAgainIffNoneCurrent(s: Sys)
    requires Inv(s)
    ensures (forall ls :: Exec(DoCrash(s), ls).members == []) <==> !SomeCurrent(s)
  {
    var u := DoCrash(s);
    if d: Addr :| Current(s, d) {
      CrashedIsStartable(s, d);
      StartsAlone(u, d);
      assert Exec(u, Starts(u.conf, d)).members == [d];
    } else {
      CrashedIsStuck(s);
      forall ls ensures Exec(u, ls).members == [] {
        StuckForever(u, ls);
      }
    }
  }

  // ----- agreement of the stores

  /** With the mutex free, every member is current and holds the committed store. */
  ghost predicate Agreed(t: Sys) {
    t.phase.Idle? ==> forall a :: a in t.members && a in t.nodes ==>
      t.nodes[a].next == t.next && t.nodes[a].store == Committed(t)
  }

  /** ... in every run up to the next crash. */
  ghost predicate AgreesFrom(s: Sys) {
    forall ls :: OneLife(ls) ==> Agreed(Exec(s, ls))
  }

  lemma AgreeIsAgreed(t: Sys)
    requires Agree(true, t)
    ensures Agreed(t)
  {
    if t.phase.Idle? {
      forall a | a in t.members && a in t.nodes ensures t.nodes[a].next == t.next && t.nodes[a].store == Committed(t) {
        NodeFacts(true, t, a);
      }
    }
  }

  lemma {:induction false} CleanAgrees(s: Sys)
    requires Agree(true, s) && Clean(s)
    ensures AgreesFrom(DoCrash(s))
  {
    CrashKeeps(s);
    CrashAgrees(s);
    forall ls | OneLife(ls) ensures Agreed(Exec(DoCrash(s), ls)) {
      RunAgrees(true, DoCrash(s), ls);
      AgreeIsAgreed(Exec(DoCrash(s), ls));
    }
  }

  lemma {:induction false} StuckAgrees(s: Sys)
    requires Inv(s) && !SomeCurrent(s)
    ensures AgreesFrom(DoCrash(s))
  {
    CrashedIsStuck(s);
    forall ls | OneLife(ls) ensures Agreed(Exec(DoCrash(s), ls)) {
      StuckForever(DoCrash(s), ls);
    }
  }

  /** A current participant has the committed store, and leaves no id undecided. */
  lemma CurrentFacts(s: Sys, d: Addr)
    requires Agree(true, s) && Current(s, d)
    ensures s.nodes[d].store == Committed(s) && Snapshot.SmallStore(s.nodes[d].store) && NoneOpen(s)
  {
    NodeFacts(true, s, d);
    assert LogInv(s);
    hide Agree, Committed, Before, Doomed, Snapshot.SmallStore;
    forall i | i in DiskRecords(s) ensures DiskRecords(s)[i].status != UNRESOLVED {
      assert RecordInv(i, DiskRecords(s)[i], DiskNext(s), s.cmds, s.commits, s.aborts);
    }
  }

  lemma BehindCurrent(s: Sys, d: Addr, e: Addr, k: string)
    requires Agree(true, s) && Current(s, d) && e in s.nodes && k in s.nodes[e].store && k !in Committed(s)
    ensures s.nodes[e].next < DiskNext(s) && k !in s.nodes[d].store
  {
    CurrentFacts(s, d);
    NodeFacts(true, s, e);
    if Current(s, e) {
      CurrentFacts(s, e);
    }
  }

  lemma DivergedIsNotAgreed(t: Sys, d: Addr, e: Addr, k: string)
    requires Diverged(t, d, e, k)
    ensures !Agreed(t)
  {
  }

  /** An unclean store beside a current participant: some run after the crash ends in disagreement. */
  lemma {:induction false} UncleanDisagrees(s: Sys, d: Addr, e: Addr, k: string)
    requires Agree(true, s) && Current(s, d) && e in s.nodes && k in s.nodes[e].store && k !in Committed(s)
    ensures !AgreesFrom(DoCrash(s))
  {
    var u := DoCrash(s);
    CurrentFacts(s, d);
    BehindCurrent(s, d, e, k);
    CrashedIsStartable(s, d);
    CrashKeeps(s);
    var ls := UncleanDiverges(u, d, e, k);
    DivergedIsNotAgreed(Exec(u, ls), d, e, k);
  }

  /**
   * After a crash at s, members agree with the committed store in every run up to the next crash
   * iff no participant holds a key that is not committed, or no participant is current.
   */
  lemma {:induction false} CrashKeepsAgreementIff(s: Sys)
    requires Agree(true, s)
    ensures AgreesFrom(DoCrash(s)) <==> Clean(s) || !SomeCurrent(s)
  {
    if Clean(s) {
      CleanAgrees(s);
    } else if d: Addr :| Current(s, d) {
      var e :| e in s.nodes && !(s.nodes[e].store.Keys <= Committed(s).Keys);
      var k :| k in s.nodes[e].store && k !in Committed(s);
      UncleanDisagrees(s, d, e, k);
    } else {
      StuckAgrees(s);
    }
  }

  // ----- a crash between an UNRESOLVED record and its decision

  /** A participant is never ahead of an id that is still open. */
  lemma OpenHasNoCurrent(strict: bool, s: Sys)
    requires Agree(strict, s) && !NoneOpen(s)
    ensures !SomeCurrent(s)
  {
    var i :| i in DiskRecords(s) && DiskRecords(s)[i].status == UNRESOLVED;
    assert i + 1 == DiskNext(s);
    forall d | d in s.nodes ensures !Current(s, d) {
      NodeFacts(strict, s, d);
    }
  }

  /**
   * An id that was open at the crash is aborted by the start that follows, before any heartbeat, so
   * its UNRESOLVED record lets nobody in: no participant is ever admitted again.
   */
  lemma {:induction false} CrashWhilePreparingIsFinal(strict: bool, s: Sys, ls: seq<Label>)
    requires Agree(strict, s) && !NoneOpen(s)
    ensures Exec(DoCrash(s), ls).members == []
  {
    OpenHasNoCurrent(strict, s);
    NoMemberAgainIffNoneCurrent(s);
  }

  /** Such a crash never leads to disagreement, however unclean the stores are. */
  lemma {:induction false} OpenStaysAgreed(strict: bool, s: Sys)
    requires Agree(strict, s) && !NoneOpen(s)
    ensures AgreesFrom(DoCrash(s))
  {
    OpenHasNoCurrent(strict, s);
    StuckAgrees(s);
  }

  /** d is one id behind, and that id is still UNRESOLVED in the log. */
  ghost predicate BehindOpen(s: Sys, d: Addr) {
    && d in s.nodes && s.nodes[d].next + 1 == DiskNext(s)
    && s.nodes[d].next in DiskRecords(s) && DiskRecords(s)[s.nodes[d].next].status == UNRESOLVED
  }

  lemma OneOpen(done: Record, r: Record)
    requires done.Done() && r.status == UNRESOLVED
    ensures Replay([done, r]) == map[r.id := r] && LastNext([done, r]) == r.next
  {
    OneDone(done);
    assert [done, r][..1] == [done];
  }

  /** There is such a state with unclean stores, and with a participant that the record would let in but for the crash. */
  lemma {:induction false} BehindOpenStaysAgreed() returns (s: Sys, d: Addr)
    ensures Agree(true, s) && !Clean(s) && BehindOpen(s, d) && AgreesFrom(DoCrash(s))
  {
    var cmd := Set("a", "b");
    var done, r := Record(COMMIT_DONE, 0, 1), Record(UNRESOLVED, 1, 2);
    var ahead, behind := Node(1, map[1 := cmd], map[], []), Node(0, map[], map["k" := "v"], []);
    s := Sys([0, 1], 2, [], {"k"}, map[1 := r], Idle, [done, r], map[0 := ahead, 1 := behind],
             1, map[], map[1 := cmd], {}, {}, {}, []);
    d := 0;
    OneOpen(done, r);
    assert Committed(s) == map[] == Before(s);
    assert Stores(true, s);
    assert Inv(s);
    assert "k" in s.nodes[1].store;
    assert r.id in DiskRecords(s);
    OpenStaysAgreed(true, s);
  }
}
