/**
 * A prepared command that is never settled. A participant that executes PREPARE but whose answer is
 * lost keeps the command: its recovery replaces the store and the next id, and no pending command.
 * It is then admitted, and fails the next COMMIT it is sent.
 */
module StalePending {
  import opened KeyValue
  import opened Ordering
  import opened RecordLog
  import opened Participants
  import opened Protocol
  import opened Decisions
  import opened Agreement
  import opened TwoPhaseCommit
  import opened RestartDivergence
  import Snapshot

  // ----- who answers a client's COMMIT

  /** The participant holds a command under an id below id. */
  ghost predicate HoldsBelow(n: Node, id: nat) {
    exists j :: j in n.pending && j < id
  }

  /** A participant that prepared the id and is at it answers COMMIT unless it holds a lower id. */
  lemma AnswersIffNoneBelow(n: Node, id: nat)
    requires n.next == id && id in n.pending
    ensures CommitAnswer(n, id).Answer? <==> !HoldsBelow(n, id)
    ensures !CommitAnswer(n, id).Answer? <==> CommitAnswer(n, id).Throws?
  {
    var first := Least(n.pending.Keys);
    if HoldsBelow(n, id) {
      var j :| j in n.pending && j < id;
      assert first <= j;
    }
  }

  lemma CalledMembers(s: Sys)
    requires WF(s) && s.phase.Sending? && s.phase.commit && Calls(s)
    ensures var t := Step(s, Call(Done));
      t.members == if CommitAnswer(s.nodes[s.members[s.phase.i]], s.phase.id).Answer? then s.members
                   else Erase(s.members, s.phase.i)
  {
    hide Commit, CommitAnswer, Erase, WF;
  }

  /**
   * In every run with any crashes: a member that is reached in the COMMIT loop of a client answers, and
   * stays a member, iff it holds no prepared command with a lower id; otherwise its handler throws.
   */
  lemma {:induction false} ClientCommitAnsweredIff(s: Sys, ls: seq<Label>)
    requires FirstStart(s)
    requires var t := Exec(s, ls);
      t.phase.Sending? && t.phase.commit && t.phase.after.Client? && Calls(t)
    ensures var t := Exec(s, ls);
      var n := t.nodes[t.members[t.phase.i]];
      && (CommitAnswer(n, t.phase.id).Answer? <==> !HoldsBelow(n, t.phase.id))
      && (CommitAnswer(n, t.phase.id).Throws? <==> HoldsBelow(n, t.phase.id))
      && Step(t, Call(Done)).members == if HoldsBelow(n, t.phase.id) then Erase(t.members, t.phase.i) else t.members
  {
    FirstStartAgrees(s);
    RunKeeps(s, ls);
    var t := Exec(s, ls);
    SendingFacts(t);
    AnswersIffNoneBelow(t.nodes[t.members[t.phase.i]], t.phase.id);
    hide Exec, Inv, CommitAnswer, HoldsBelow, Step;
    CalledMembers(t);
  }

  // ----- no member comes to hold such a command while it stays a member

  /** Member a holds at most the command being served, and none that it has been told the decision of. */
  ghost predicate Clear(s: Sys, a: Addr) {
    && a in s.members && a in s.nodes
    && match s.phase
       case Preparing(id, _, _, _) => s.nodes[a].pending.Keys <= {id}
       case Sending(id, _, i, _, after) =>
         && after.Client? && i <= |s.members| && s.nodes[a].pending.Keys <= {id}
         && (forall j :: 0 <= j < i && s.members[j] == a ==> s.nodes[a].pending == map[])
       case Unfinished(todo) => todo == [] && s.nodes[a].pending == map[]
       case Starting(_) => false
       case Down => false
       case _ => s.nodes[a].pending == map[]
  }

  /** A step that leaves a's state alone, and is not about a command. */
  lemma ClearStays(s: Sys, t: Sys, a: Addr)
    requires Clear(s, a) && a in t.members && a in t.nodes && t.nodes[a].pending == s.nodes[a].pending
    requires !s.phase.Preparing? && !s.phase.Sending?
    requires !t.phase.Down? && !t.phase.Starting? && !t.phase.Sending? && (t.phase.Unfinished? ==> t.phase.todo == [])
    ensures Clear(t, a)
  {
  }

  lemma {:induction false} ClearPrepares(s: Sys, o: Outcome, a: Addr)
    requires Inv(s) && s.phase.Preparing? && Calls(s) && Clear(s, a) && a in PrepareCall(s, o).members
    ensures Clear(PrepareCall(s, o), a)
  {
    PrepareShape(s, o);
    hide Inv, PrepareCall, WF;
  }

  /** Being told the decision takes the command away. */
  lemma ToldIsEmpty(n: Node, id: nat, commit: bool)
    requires Awaits(n, id, commit, true) && n.pending.Keys <= {id}
    ensures commit && CommitAnswer(n, id).Answer? ==> Commit(n, id).pending == map[]
    ensures !commit ==> Abort(n, id).pending == map[]
  {
    if n.pending != map[] {
      var k :| k in n.pending;
      assert n.pending.Keys == {id};
      assert n.pending - {id} == map[];
    }
  }

  lemma ErasedIsOut(ms: seq<Addr>, i: nat)
    requires i < |ms| && Ascending(ms)
    ensures ms[i] !in Erase(ms, i)
  {
  }

  /** A decision call, given what it does to the participant called. */
  lemma {:induction false} CalledClear(s: Sys, t: Sys, n: Node, a: Addr)
    requires s.phase.Sending? && Calls(s) && Ascending(s.members) && Called(s, t, n) && Clear(s, a) && a in t.members
    requires s.members[s.phase.i] in s.nodes
    requires a == s.members[s.phase.i] && t.members == s.members ==> n.pending == map[]
    ensures Clear(t, a)
  {
    ErasedIsOut(s.members, s.phase.i);
    assert forall j :: 0 <= j < |s.members| && s.members[j] == s.members[s.phase.i] ==> j == s.phase.i;
    assert |Erase(s.members, s.phase.i)| == |s.members| - 1;
    hide Ascending, Erase;
  }

  lemma {:induction false} ClearCommits(s: Sys, o: Outcome, a: Addr)
    requires Inv(s) && s.phase.Sending? && s.phase.commit && Calls(s) && Clear(s, a) && a in CommitCall(s, o).members
    ensures Clear(CommitCall(s, o), a)
  {
    SendingFacts(s);
    MemberNode(s);
    var b := s.members[s.phase.i];
    var n := s.nodes[b];
    var t := CommitCall(s, o);
    if CommitAnswer(n, s.phase.id).Answer? {
      CommitSettles(n, s.phase.id, true);
    }
    CommitShape(s, o);
    AnsweredStays(s, o);
    hide Inv, WF, Commit, CommitAnswer, Called, CommitCall, Erase, Clear;
    if a == b {
      ToldIsEmpty(n, s.phase.id, true);
    }
    CalledClear(s, t, Commit(n, s.phase.id), a);
  }

  lemma MemberNode(s: Sys)
    requires WF(s) && s.phase.Sending? && Calls(s)
    ensures s.members[s.phase.i] in s.nodes && Ascending(s.members)
    ensures forall a :: Clear(s, a) ==> s.phase.after.Client?
    ensures forall a :: Clear(s, a) && a == s.members[s.phase.i] ==> s.nodes[a].pending.Keys <= {s.phase.id}
  {
    assert s.members[s.phase.i] in s.members;
  }

  /** A member that is called stays one only if it answers. */
  lemma AnsweredStays(s: Sys, o: Outcome)
    requires WF(s) && s.phase.Sending? && s.phase.commit && Calls(s)
    ensures CommitCall(s, o).members == s.members ==> CommitAnswer(s.nodes[s.members[s.phase.i]], s.phase.id).Answer?
  {
    hide Commit, CommitAnswer, WF;
  }

  lemma {:induction false} ClearAborts(s: Sys, o: Outcome, a: Addr)
    requires Inv(s) && s.phase.Sending? && !s.phase.commit && Calls(s) && Clear(s, a) && a in AbortCall(s, o).members
    ensures Clear(AbortCall(s, o), a)
  {
    SendingFacts(s);
    MemberNode(s);
    var b := s.members[s.phase.i];
    var n := s.nodes[b];
    AbortSettles(n, s.phase.id, true);
    AbortShape(s, o);
    hide Inv, WF, Abort, Called, AbortCall, Erase, Clear;
    if a == b {
      ToldIsEmpty(n, s.phase.id, false);
    }
    CalledClear(s, AbortCall(s, o), Abort(n, s.phase.id), a);
  }

  lemma {:induction false} RecoveryLeaves(s: Sys, o: Outcome, a: Addr)
    requires WF(s) && Calls(s) && SortedRecords(s.records) == [] && a in s.nodes
    requires (s.phase.Asking? || s.phase.Renumbering? || s.phase.Restoring?) && a != s.phase.a
    ensures var t := DoCall(s, o);
      && a in t.nodes && t.nodes[a] == s.nodes[a]
      && (t.phase.Idle? || t.phase.Fetching? || t.phase.Renumbering? || t.phase == Unfinished([]))
  {
    hide Snapshot.Recover, Insert, Ascending, SortedRecords;
    hide GetCall, PrepareCall, CommitCall, AbortCall, FetchCall, StartCall;
  }

  /** Recovering another participant finds nothing unfinished while there is a member. */
  lemma {:induction false} ClearRecovers(s: Sys, o: Outcome, a: Addr)
    requires Inv(s) && Calls(s) && Clear(s, a) && a in DoCall(s, o).members
    requires s.phase.Asking? || s.phase.Renumbering? || s.phase.Restoring?
    ensures Clear(DoCall(s, o), a)
  {
    assert s.phase.a !in s.members && DiskRecords(s) == map[] && SortedRecords(s.records) == [];
    hide Inv, Clear, DoCall, SortedRecords;
    RecoveryLeaves(s, o, a);
    ClearStays(s, DoCall(s, o), a);
  }

  lemma {:induction false} ClearReads(s: Sys, o: Outcome, a: Addr)
    requires WF(s) && Calls(s) && Clear(s, a) && a in DoCall(s, o).members
    requires s.phase.Getting? || s.phase.Fetching?
    ensures Clear(DoCall(s, o), a)
  {
    hide WF, Erase, Snapshot.Encode, GetReply;
    ClearStays(s, DoCall(s, o), a);
  }

  lemma {:induction false} ClearLocally(s: Sys, a: Addr)
    requires WF(s) && Enabled(s, Local) && Clear(s, a) && a in DoLocal(s).members
    ensures Clear(DoLocal(s), a)
  {
    hide WF, Appended, Absorb, SortedRecords, Remembered;
    if s.phase.Sending? {
      var j :| 0 <= j < |s.members| && s.members[j] == a;
    }
  }

  lemma {:induction false} ClearElse(s: Sys, l: Label, a: Addr)
    requires WF(s) && Enabled(s, l) && !l.Call? && !l.Local? && Clear(s, a) && a in Step(s, l).members
    ensures Clear(Step(s, l), a)
  {
    hide WF, Appended, Absorb, Remove, Replay, DoCall, DoLocal;
  }

  lemma {:induction false} ClearStep(s: Sys, l: Label, a: Addr)
    requires Inv(s) && Clear(s, a) && a in Step(s, l).members
    ensures Clear(Step(s, l), a)
  {
    assert WF(s);
    if Enabled(s, l) {
      hide Inv, WF, Clear, DoLocal;
      if l.Local? {
        ClearLocally(s, a);
      } else if !l.Call? {
        ClearElse(s, l, a);
      } else if s.phase.Preparing? {
        ClearPrepares(s, l.o, a);
      } else if s.phase.Sending? {
        if s.phase.commit {
          ClearCommits(s, l.o, a);
        } else {
          ClearAborts(s, l.o, a);
        }
      } else if s.phase.Getting? || s.phase.Fetching? {
        ClearReads(s, l.o, a);
      } else if s.phase.Starting? {
        NeverStarting(s, a);
      } else {
        ClearRecovers(s, l.o, a);
      }
    }
  }

  lemma NeverStarting(s: Sys, a: Addr)
    requires s.phase.Starting?
    ensures !Clear(s, a)
  {
  }

  /** a is a member in every state of the run. */
  ghost predicate Remains(s: Sys, ls: seq<Label>, a: Addr) {
    forall i :: 0 <= i <= |ls| ==> a in Exec(s, ls[..i]).members
  }

  lemma {:induction false} RemainsFront(s: Sys, ls: seq<Label>, a: Addr)
    requires ls != [] && Remains(s, ls, a)
    ensures Remains(s, ls[..|ls| - 1], a)
    ensures a in Step(Exec(s, ls[..|ls| - 1]), ls[|ls| - 1]).members
  {
    var n := |ls| - 1;
    hide Step;
    assert forall i :: 0 <= i <= n ==> ls[..n][..i] == ls[..i];
    assert ls[..|ls|] == ls;
    assert Exec(s, ls) == Step(Exec(s, ls[..n]), ls[n]);
  }

  lemma {:induction false} ClearRun(s: Sys, ls: seq<Label>, a: Addr)
    requires Inv(s) && Clear(s, a) && Remains(s, ls, a)
    ensures Clear(Exec(s, ls), a)
    decreases |ls|
  {
    assert Exec(s, []) == s;
    if ls == [] {
    } else {
      var n := |ls| - 1;
      RemainsFront(s, ls, a);
      hide Inv, Clear, Step, Remains;
      ClearRun(s, ls[..n], a);
      RunKeeps(s, ls[..n]);
      ClearStep(Exec(s, ls[..n]), ls[n], a);
    }
  }

  lemma SomeHeld(n: Node, next: nat)
    requires n.pending != map[] && forall j :: j in n.pending ==> j < next
    ensures HoldsBelow(n, next)
  {
    var j :| j in n.pending;
  }

  lemma IdleIsClear(s: Sys, a: Addr)
    requires Inv(s) && s.phase.Idle? && a in s.members && !HoldsBelow(s.nodes[a], s.next)
    ensures Clear(s, a)
  {
    assert NodeInv(s.nodes[a], DiskNext(s), s.first, s.cmds, s.commits);
    if s.nodes[a].pending != map[] {
      SomeHeld(s.nodes[a], s.next);
    }
  }

  /**
   * Whatever commits, aborts, recoveries and readmissions of others: a member with no prepared command
   * below the next id has none whenever the mutex is free, for as long as it stays a member.
   */
  lemma {:induction false} MembersStayClear(s: Sys, ls: seq<Label>, a: Addr)
    requires Inv(s) && s.phase.Idle? && Remains(s, ls, a)
    requires a in s.members && !HoldsBelow(s.nodes[a], s.next)
    ensures var t := Exec(s, ls);
      t.phase.Idle? ==> a in t.nodes && t.nodes[a].pending == map[] && !HoldsBelow(t.nodes[a], t.next)
  {
    IdleIsClear(s, a);
    ClearRun(s, ls, a);
  }

  // ----- a run that leaves such a command behind

  /** An idle coordinator with the members a and b, in this order, and nothing unfinished. */
  ghost predicate Pair(s: Sys, a: Addr, b: Addr) {
    && WF(s) && s.phase.Idle? && s.members == [a, b] && a != b
    && s.next == DiskNext(s) && s.records == DiskRecords(s) == map[] && s.delKeys == {}
    && s.nodes[a].next == s.nodes[b].next == s.next
    && NoneUpTo(s.nodes[b], s.next) && s.next !in s.nodes[a].pending
  }

  /** b recovers a, which then is a member again. */
  lemma {:induction false} Readmits(s: Sys, b: Addr, a: Addr)
    requires Solo(s, b, a) && s.delKeys == {} && a < b && Snapshot.SmallStore(s.nodes[b].store)
    requires NoneUpTo(s.nodes[b], s.next) && s.next !in s.nodes[a].pending
    ensures var t := Exec(s, Recovery(a) + [Local]);
      && Pair(t, a, b) && t.next == s.next && t.nodes[b] == s.nodes[b] && t.nodes[a].pending == s.nodes[a].pending
    ensures OneLife(Recovery(a) + [Local])
  {
    SoloRecovery(s, b, a);
    assert Insert([b], a) == [a, b];
    var t := Exec(s, Recovery(a));
    hide Exec;
    NothingUnfinished(t);
    ExecOne(s, Recovery(a), Local);
  }

  lemma PrepareLost(s: Sys, a: Addr, b: Addr, id: nat, cmd: Command)
    requires WF(s) && s.phase == Preparing(id, cmd, 0, true) && s.members == [a, b] && id !in s.nodes[a].pending
    ensures var n := s.nodes[a].(pending := s.nodes[a].pending[id := cmd]);
            Step(s, Call(Lost)) == s.(members := [b], nodes := s.nodes[a := n])
  {
    assert Erase([a, b], 0) == [b];
  }

  /** An update of which the answer of a's PREPARE is lost, and which b commits. */
  function LosingUpdate(cmd: Command): seq<Label> {
    [Update(cmd), Call(Lost), Call(Done), Local, Call(Done), Local]
  }

  lemma Six(s: Sys, l1: Label, s1: Sys, l2: Label, s2: Sys, l3: Label, s3: Sys, l4: Label, s4: Sys, l5: Label, s5: Sys,
            l6: Label, s6: Sys)
    requires Step(s, l1) == s1 && Step(s1, l2) == s2 && Step(s2, l3) == s3 && Step(s3, l4) == s4 && Step(s4, l5) == s5
    requires Step(s5, l6) == s6
    ensures Exec(s, [l1, l2, l3, l4, l5, l6]) == s6
  {
    hide Step, Exec;
    Five(s, l1, s1, l2, s2, l3, s3, l4, s4, l5, s5);
    ExecOne(s, [l1, l2, l3, l4, l5], l6);
    assert [l1, l2, l3, l4, l5] + [l6] == [l1, l2, l3, l4, l5, l6];
  }

  /** The steps of that update up to the COMMIT record. */
  lemma {:induction false} LosesAnswer(s: Sys, a: Addr, b: Addr, cmd: Command)
    requires Pair(s, a, b)
    ensures var id := s.next;
      var t := Step(Step(Step(Step(s, Update(cmd)), Call(Lost)), Call(Done)), Local);
      var r := Record(COMMIT, id, id + 1);
      var na := s.nodes[a].(pending := s.nodes[a].pending[id := cmd]);
      var nb := s.nodes[b].(pending := s.nodes[b].pending[id := cmd]);
      t == s.(next := id + 1, cmds := s.cmds[id := cmd], records := map[id := r], commits := s.commits + {id},
              disk := s.disk + [Record(UNRESOLVED, id, id + 1)] + [r], members := [b],
              nodes := s.nodes[a := na][b := nb], phase := Sending(id, true, 0, "", Client(cmd)))
  {
    hide Step, Appended, Absorb;
    var id := s.next;
    UpdateBegins(s, cmd);
    var s1 := Step(s, Update(cmd));
    PrepareLost(s1, a, b, id, cmd);
    var s2 := Step(s1, Call(Lost));
    UpdatePrepares(s2, id, cmd, 0);
    UpdateDecides(Step(s2, Call(Done)), id, cmd);
  }

  lemma {:induction false} CommitsAlone(s: Sys, b: Addr, id: nat, key: string, value: string)
    requires WF(s) && s.members == [b] && s.phase == Sending(id, true, 0, "", Client(Set(key, value)))
    requires s.nodes[b].next == id && Heads(s.nodes[b], id, Set(key, value)) && s.records.Keys == {id}
    ensures var t := Step(Step(s, Call(Done)), Local);
      var n := s.nodes[b];
      && WF(t)
      && t == s.(disk := t.disk, records := map[], out := t.out, sent := t.sent, phase := Idle,
                 nodes := s.nodes[b := Node(id + 1, n.pending - {id}, Apply(Set(key, value), n.store),
                                            n.applied + [(id, Set(key, value))])])
      && Replay(t.disk) == map[] && LastNext(t.disk) == s.next
  {
    var cmd := Set(key, value);
    assert forall u: Sys :: Remembered(u, true, cmd) == {};
    assert s.delKeys + {} == s.delKeys;
    hide Step, Reply, Apply, WF, Heads, Remembered;
    UpdateCommits(s, b, id, cmd);
    var t := Step(s, Call(Done));
    UpdateFinishes(t, b, id, cmd, t.phase.ret);
    OneDone(Record(COMMIT_DONE, id, t.next));
  }

  /** Afterwards b is the only member, and a still holds the command. */
  lemma {:induction false} LeavesBehind(s: Sys, a: Addr, b: Addr, key: string, value: string)
    requires Pair(s, a, b)
    ensures var t := Exec(s, LosingUpdate(Set(key, value)));
      && Solo(t, b, a) && t.next == s.next + 1 && t.delKeys == {}
      && t.nodes[b] == Node(s.next + 1, s.nodes[b].pending, Apply(Set(key, value), s.nodes[b].store),
                            s.nodes[b].applied + [(s.next, Set(key, value))])
      && t.nodes[a] == s.nodes[a].(pending := s.nodes[a].pending[s.next := Set(key, value)])
  {
    var id, cmd := s.next, Set(key, value);
    LosesAnswer(s, a, b, cmd);
    var s1 := Step(s, Update(cmd));
    var s2 := Step(s1, Call(Lost));
    var s3 := Step(s2, Call(Done));
    var s4 := Step(s3, Local);
    var s5 := Step(s4, Call(Done));
    assert s.nodes[b].pending[id := cmd] - {id} == s.nodes[b].pending;
    hide Step, Exec, Reply, Apply, Appended, Absorb, Replay;
    CommitsAlone(s4, b, id, key, value);
    Six(s, Update(cmd), s1, Call(Lost), s2, Call(Done), s3, Local, s4, Call(Done), s5, Local, Step(s5, Local));
  }

  /** Another update, up to its first COMMIT call. */
  function NextUpdate(cmd: Command): seq<Label> {
    [Update(cmd), Call(Done), Call(Done), Local]
  }

  lemma {:induction false} ReachesCommit(s: Sys, a: Addr, b: Addr, cmd: Command)
    requires Pair(s, a, b)
    ensures var t := Exec(s, NextUpdate(cmd));
      && t.phase == Sending(s.next, true, 0, "", Client(cmd)) && t.members == [a, b] && a in t.nodes
      && t.nodes[a].pending == s.nodes[a].pending[s.next := cmd]
  {
    hide Step, Exec, Appended, Absorb;
    var id := s.next;
    UpdateBegins(s, cmd);
    var s1 := Step(s, Update(cmd));
    UpdatePrepares(s1, id, cmd, 0);
    var s2 := Step(s1, Call(Done));
    UpdatePrepares(s2, id, cmd, 1);
    var s3 := Step(s2, Call(Done));
    UpdateDecides(s3, id, cmd);
    Three(s, Update(cmd), s1, Call(Done), s2, Call(Done), s3);
    ExecOne(s, [Update(cmd), Call(Done), Call(Done)], Local);
    assert [Update(cmd), Call(Done), Call(Done)] + [Local] == NextUpdate(cmd);
  }

  /** A start that reaches b, the recovery of a, the two updates with another recovery of a between them. */
  function Run(conf: seq<Addr>, a: Addr, b: Addr, first: Command, second: Command): seq<Label> {
    Starts(conf, b) + [Local] + (Recovery(a) + [Local]) + LosingUpdate(first) + (Recovery(a) + [Local]) + NextUpdate(second)
  }

  /**
   * From every start with a current participant b and a lagging one a before it, neither with a pending
   * command: after this run, in which the answer of one PREPARE is lost, a client's COMMIT loop is about
   * to call a, which holds a command with a lower id.
   */
  lemma {:induction false} LostAnswerLeavesPending(s: Sys, a: Addr, b: Addr, key: string, value: string, second: Command)
    requires Lagging(s, b, a) && a < b && s.delKeys == {}
    requires s.nodes[a].pending == map[] == s.nodes[b].pending
    requires Snapshot.SmallStore(s.nodes[b].store) && Snapshot.SmallCommand(Set(key, value))
    ensures var t := Exec(s, Run(s.conf, a, b, Set(key, value), second));
      && t.phase.Sending? && t.phase.commit && t.phase.after.Client? && t.phase.i == 0 && t.members == [a, b]
      && a in t.nodes && HoldsBelow(t.nodes[a], t.phase.id)
  {
    var first := Set(key, value);
    var s1 := Exec(s, Starts(s.conf, b) + [Local]);
    SoloStart(s, b, a);
    var s2 := Exec(s1, Recovery(a) + [Local]);
    Readmits(s1, b, a);
    hide Step, Exec, Lagging, Solo, Snapshot.SmallStore, Pair, HoldsBelow, NoneUpTo;
    var s3 := Exec(s2, LosingUpdate(first));
    LeavesBehind(s2, a, b, key, value);
    StillSmall(s2.nodes[b].store, first);
    var s4 := Exec(s3, Recovery(a) + [Local]);
    PairKeeps(s2, s3, a, b);
    Readmits(s3, b, a);
    ReachesCommit(s4, a, b, second);
    HoldsLower(s4.nodes[a].pending, s2.next, s4.next, second, Exec(s4, NextUpdate(second)).nodes[a]);
    ExecConcat(s, Starts(s.conf, b) + [Local], Recovery(a) + [Local]);
    ExecConcat(s, Starts(s.conf, b) + [Local] + (Recovery(a) + [Local]), LosingUpdate(first));
    ExecConcat(s, Starts(s.conf, b) + [Local] + (Recovery(a) + [Local]) + LosingUpdate(first), Recovery(a) + [Local]);
    ExecConcat(s, Starts(s.conf, b) + [Local] + (Recovery(a) + [Local]) + LosingUpdate(first) + (Recovery(a) + [Local]),
               NextUpdate(second));
  }

  lemma StillSmall(st: Store, cmd: Command)
    requires Snapshot.SmallStore(st) && Snapshot.SmallCommand(cmd)
    ensures Snapshot.SmallStore(Apply(cmd, st))
  {
  }

  lemma PairKeeps(s: Sys, t: Sys, a: Addr, b: Addr)
    requires Pair(s, a, b) && a in t.nodes && b in t.nodes && t.next == s.next + 1
    requires s.nodes[b].pending == map[] == s.nodes[a].pending && t.nodes[b].pending == s.nodes[b].pending
    requires t.nodes[a].pending.Keys == {s.next}
    ensures NoneUpTo(t.nodes[b], t.next) && t.next !in t.nodes[a].pending
  {
  }

  lemma HoldsLower(pending: map<nat, Command>, j: nat, id: nat, cmd: Command, n: Node)
    requires j in pending && j < id && n.pending == pending[id := cmd]
    ensures HoldsBelow(n, id)
  {
    assert j in n.pending;
  }
}
