/**
 * What every step keeps, crashes and restarts of the coordinator included: at most one unfinished
 * request, decisions that never change and are written before they are sent, and participants
 * that apply each command at most once and in id order.
 */
module Decisions {
  import opened KeyValue
  import opened Ordering
  import opened RecordLog
  import opened Participants
  import opened Protocol
  import Snapshot

  /** The next id and the unfinished records that the log on disk holds. */
  ghost function DiskNext(s: Sys): nat {
    LastNext(s.disk)
  }

  ghost function DiskRecords(s: Sys): map<nat, Record> {
    Replay(s.disk)
  }

  // ----- the invariant

  /** An unfinished record: always the latest id, with the history its status claims. */
  ghost predicate RecordInv(i: nat, r: Record, next: nat, cmds: map<nat, Command>, commits: set<nat>, aborts: set<nat>) {
    && i + 1 == next
    && r.id == i
    && i in cmds
    && (|| (r.status == UNRESOLVED && i !in commits && i !in aborts)
        || (r.status == COMMIT && i in commits)
        || (r.status == ABORT && i in aborts))
  }

  ghost predicate RecordsInv(m: map<nat, Record>, next: nat, cmds: map<nat, Command>, commits: set<nat>,
      aborts: set<nat>) {
    forall i :: i in m ==> RecordInv(i, m[i], next, cmds, commits, aborts)
  }

  ghost predicate LogInv(s: Sys) {
    && 0 < DiskNext(s)
    && s.first <= DiskNext(s)
    && RecordsInv(DiskRecords(s), DiskNext(s), s.cmds, s.commits, s.aborts)
    && (forall i :: i in s.cmds ==> s.first <= i < DiskNext(s))
    && (forall i :: i in s.commits ==> i in s.cmds && i !in s.aborts)
    && (forall i :: i in s.aborts ==> i in s.cmds)
    && (forall i :: (i, true) in s.sent ==> i in s.commits)
    && (forall i :: (i, false) in s.sent ==> i in s.aborts)
    && (!s.phase.Down? ==> s.next == DiskNext(s) && s.records == DiskRecords(s))
  }

  /** Applied ids ascend strictly; each applied command is the one given that id, and committed. */
  ghost predicate InOrder(n: Node, cmds: map<nat, Command>, commits: set<nat>) {
    && (forall j, k :: 0 <= j < k < |n.applied| ==> n.applied[j].0 < n.applied[k].0)
    && (forall j :: 0 <= j < |n.applied| ==>
          n.applied[j].0 < n.next && n.applied[j].0 in commits &&
          n.applied[j].0 in cmds && cmds[n.applied[j].0] == n.applied[j].1)
  }

  ghost predicate NodeInv(n: Node, next: nat, first: nat, cmds: map<nat, Command>, commits: set<nat>) {
    && n.next <= next
    && (forall i :: i in n.pending ==> i < next && (first <= i ==> i in cmds && n.pending[i] == cmds[i]))
    && InOrder(n, cmds, commits)
  }

  ghost predicate NodesInv(s: Sys) {
    forall a :: a in s.nodes ==> NodeInv(s.nodes[a], DiskNext(s), s.first, s.cmds, s.commits)
  }

  ghost predicate MembersAt(s: Sys, next: nat) {
    forall a :: a in s.members && a in s.nodes ==> s.nodes[a].next == next
  }

  /** With the mutex free: members are current, and nothing is unfinished while there are members. */
  ghost predicate Quiet(s: Sys) {
    MembersAt(s, DiskNext(s)) && (s.members != [] ==> DiskRecords(s) == map[])
  }

  ghost predicate OnlyRecord(s: Sys, id: nat, status: uint8) {
    DiskRecords(s).Keys == {id} && DiskRecords(s)[id].status == status
  }

  /** A member the decision loop has still to call: it prepared the id, or has settled it. */
  ghost predicate Awaits(n: Node, id: nat, commit: bool, fresh_: bool) {
    || (n.next == id && (commit ==> id in n.pending))
    || (!fresh_ && n.next == id + 1)
  }

  /** The first i members have the id among their prepared commands. */
  ghost predicate Prepared(nodes: map<Addr, Node>, ms: seq<Addr>, id: nat, i: nat)
    requires i <= |ms|
  {
    forall j :: 0 <= j < i ==> ms[j] in nodes && id in nodes[ms[j]].pending
  }

  /** The first i members are past the id; the others are still to be told the decision. */
  ghost predicate Told(nodes: map<Addr, Node>, ms: seq<Addr>, id: nat, commit: bool, i: nat, fresh_: bool)
    requires i <= |ms|
  {
    && (forall j :: 0 <= j < i ==> ms[j] in nodes && nodes[ms[j]].next == id + 1)
    && (forall j :: i <= j < |ms| ==> ms[j] in nodes && Awaits(nodes[ms[j]], id, commit, fresh_))
  }

  /** The only unfinished record is the decision being sent. */
  ghost predicate OnTheRecord(m: map<nat, Record>, cmds: map<nat, Command>, id: nat, commit: bool, after: After) {
    && m.Keys == {id} && m[id].status == (if commit then COMMIT else ABORT)
    && (after.Rest? ==> after.todo == [])
    && (after.Client? ==> id in cmds && cmds[id] == after.cmd)
  }

  ghost predicate PhaseInv(s: Sys)
    requires WF(s)
  {
    match s.phase
    case Down => s.members == []
    case AssertFailed => false
    case Starting(_) => MembersAt(s, DiskNext(s))
    case Unfinished(todo) =>
      || (todo == [] && Quiet(s))
      || (|todo| == 1 && DiskRecords(s) == map[todo[0].id := todo[0]] &&
          forall a :: a in s.members ==>
            || s.nodes[a].next == DiskNext(s)
            || (s.nodes[a].next + 1 == DiskNext(s) && todo[0].status == UNRESOLVED))
    case Preparing(id, cmd, i, _) =>
      && OnlyRecord(s, id, UNRESOLVED) && id in s.cmds && s.cmds[id] == cmd
      && MembersAt(s, id)
      && Prepared(s.nodes, s.members, id, i)
    case Sending(id, commit, i, _, after) =>
      && OnTheRecord(DiskRecords(s), s.cmds, id, commit, after)
      && Told(s.nodes, s.members, id, commit, i, after.Client?)
    case Restoring(_, snapshot) =>
      Quiet(s) && s.members != [] && snapshot == Snapshot.Encode(s.nodes[s.members[0]].store)
    case Renumbering(_) => Quiet(s) && s.members != []
    case _ => Quiet(s)
  }

  ghost predicate Inv(s: Sys) {
    WF(s) && LogInv(s) && NodesInv(s) && PhaseInv(s)
  }

  // ----- small facts

  lemma LogFacts(s: Sys, r: Record)
    requires s.records == DiskRecords(s)
    ensures DiskRecords(Log(s, r)) == Log(s, r).records == Absorb(s.records, r)
    ensures DiskNext(Log(s, r)) == r.next
  {
    ReplayAppended(s.disk, s.records, r);
  }

  lemma SortedOne(m: map<nat, Record>, i: nat)
    requires m.Keys == {i}
    ensures SortedRecords(m) == [m[i]] && m == map[i := m[i]]
  {
    assert i in m.Keys;
    assert Least(m.Keys) == i;
    assert m - {i} == map[];
  }

  /** The unfinished records in order: none, or the single latest one. */
  lemma SortedUnfinished(s: Sys)
    requires LogInv(s)
    ensures DiskRecords(s) == map[] ==> SortedRecords(DiskRecords(s)) == []
    ensures DiskRecords(s) != map[] ==>
              var i := DiskNext(s) - 1;
              i in DiskRecords(s) && SortedRecords(DiskRecords(s)) == [DiskRecords(s)[i]] &&
              DiskRecords(s) == map[i := DiskRecords(s)[i]] && DiskRecords(s)[i].id == i
  {
    var m := DiskRecords(s);
    if m != map[] {
      var i := DiskNext(s) - 1;
      assert m.Keys != {};
      assert forall k :: k in m.Keys ==> k == i;
      assert m.Keys == {i};
      SortedOne(m, i);
    }
  }

  lemma CommitKeepsNode(n: Node, id: nat, next: nat, first: nat, cmds: map<nat, Command>, commits: set<nat>)
    requires NodeInv(n, next, first, cmds, commits)
    requires id in commits && id in cmds && first <= id < next
    ensures NodeInv(Commit(n, id), next, first, cmds, commits)
  {
  }

  lemma AbortKeepsNode(n: Node, id: nat, next: nat, first: nat, cmds: map<nat, Command>, commits: set<nat>)
    requires NodeInv(n, next, first, cmds, commits) && id < next
    ensures NodeInv(Abort(n, id), next, first, cmds, commits)
  {
  }

  lemma PrepareKeepsNode(n: Node, id: nat, next: nat, first: nat, cmds: map<nat, Command>, commits: set<nat>)
    requires NodeInv(n, next, first, cmds, commits) && id in cmds && id < next
    ensures NodeInv(Prepare(n, id, cmds[id]), next, first, cmds, commits)
  {
  }

  /** A step that writes no record and changes at most the state of one participant. */
  ghost predicate Touches(s: Sys, t: Sys, a: Addr, n: Node) {
    && t == s.(members := t.members, delKeys := t.delKeys, phase := t.phase, nodes := t.nodes, sent := t.sent,
        out := t.out)
    && (t.nodes == s.nodes || t.nodes == s.nodes[a := n])
    && (t.phase.Down? <==> s.phase.Down?)
  }

  lemma TouchKeeps(s: Sys, t: Sys, a: Addr, n: Node)
    requires LogInv(s) && NodesInv(s) && Touches(s, t, a, n)
    requires NodeInv(n, DiskNext(s), s.first, s.cmds, s.commits)
    requires forall x :: x in t.sent ==> x in s.sent || (x.1 && x.0 in s.commits) || (!x.1 && x.0 in s.aborts)
    ensures LogInv(t) && NodesInv(t)
    ensures DiskNext(t) == DiskNext(s) && DiskRecords(t) == DiskRecords(s)
  {
  }

  /** A step that touches nothing but memory. */
  lemma MemoryKeeps(s: Sys, t: Sys)
    requires LogInv(s) && NodesInv(s)
    requires t == s.(members := t.members, delKeys := t.delKeys, phase := t.phase, out := t.out)
    requires t.phase.Down? <==> s.phase.Down?
    ensures LogInv(t) && NodesInv(t)
    ensures DiskNext(t) == DiskNext(s) && DiskRecords(t) == DiskRecords(s)
  {
  }

  /** Writing a record: what the log then holds. */
  lemma LogKeeps(s: Sys, t: Sys, r: Record)
    requires LogInv(s) && NodesInv(s) && !s.phase.Down? && !t.phase.Down?
    requires r.next == s.next && r.id in s.cmds && DiskRecords(s).Keys == {r.id}
    requires r.Done() || (r.status == COMMIT && r.id !in s.aborts) || (r.status == ABORT && r.id !in s.commits)
    requires t == Log(s, r).(delKeys := t.delKeys, phase := t.phase, out := t.out)
    ensures LogInv(t) && NodesInv(t)
    ensures DiskNext(t) == DiskNext(s)
    ensures DiskRecords(t) == if r.Done() then map[] else map[r.id := r]
  {
    LogFacts(s, r);
    assert r.id in DiskRecords(s);
    assert DiskRecords(t) == Absorb(DiskRecords(s), r);
    if r.Done() {
      assert DiskRecords(s) - {r.id} == map[];
    } else {
      assert DiskRecords(s)[r.id := r] == map[r.id := r];
    }
  }

  // ----- one lemma a kind of step

  lemma NewIdLog(s: Sys, cmd: Command)
    requires WF(s) && LogInv(s) && s.phase.Idle? && s.members != []
    requires DiskRecords(s) == map[]
    ensures var t := BeginUpdate(s, cmd);
      LogInv(t) && DiskNext(t) == DiskNext(s) + 1 && DiskRecords(t).Keys == {s.next} &&
      OnlyRecord(t, s.next, UNRESOLVED)
  {
    var id := s.next;
    LogFacts(s.(next := id + 1, cmds := s.cmds[id := cmd]), Record(UNRESOLVED, id, id + 1));
    var t := BeginUpdate(s, cmd);
    assert DiskRecords(t) == map[id := Record(UNRESOLVED, id, id + 1)];
  }

  lemma NewIdNodes(s: Sys, t: Sys, cmd: Command)
    requires LogInv(s) && NodesInv(s) && !s.phase.Down?
    requires DiskNext(t) == DiskNext(s) + 1 && t.first == s.first && t.commits == s.commits
    requires t.nodes == s.nodes && t.cmds == s.cmds[s.next := cmd]
    ensures NodesInv(t)
  {
    forall a | a in t.nodes ensures NodeInv(t.nodes[a], DiskNext(t), t.first, t.cmds, t.commits) {
      assert NodeInv(s.nodes[a], DiskNext(s), s.first, s.cmds, s.commits);
    }
  }

  lemma {:induction false} UpdateKeeps(s: Sys, cmd: Command)
    requires Inv(s) && s.phase.Idle?
    ensures Inv(BeginUpdate(s, cmd))
  {
    if s.members != [] {
      NewIdLog(s, cmd);
      NewIdNodes(s, BeginUpdate(s, cmd), cmd);
      hide LogInv, NodesInv, Appended, Absorb;
      assert MembersAt(s, s.next);
      assert MembersAt(BeginUpdate(s, cmd), s.next);
    }
  }

  lemma PreparedStep(nodes: map<Addr, Node>, ms: seq<Addr>, id: nat, i: nat, n: Node)
    requires i < |ms| && Ascending(ms) && Prepared(nodes, ms, id, i) && id in n.pending
    ensures Prepared(nodes[ms[i] := n], ms, id, i + 1)
    ensures Prepared(nodes[ms[i] := n], Erase(ms, i), id, i)
    ensures Prepared(nodes, Erase(ms, i), id, i)
  {
  }

  lemma MembersStay(s: Sys, t: Sys, a: Addr, n: Node, next: nat)
    requires MembersAt(s, next) && a in s.nodes && n.next == s.nodes[a].next
    requires t.nodes == s.nodes || t.nodes == s.nodes[a := n]
    requires forall x :: x in t.members ==> x in s.members
    ensures MembersAt(t, next)
  {
  }

  /** What a PREPARE call changes, whatever PREPARE does. */
  lemma PrepareShape(s: Sys, o: Outcome)
    requires WF(s) && s.phase.Preparing? && Calls(s)
    ensures var Preparing(id, cmd, i, ok) := s.phase;
      var t := PrepareCall(s, o);
      var nodes' := s.nodes[s.members[i] := Prepare(s.nodes[s.members[i]], id, cmd)];
      && t == s.(nodes := t.nodes, members := t.members, phase := t.phase)
      && (|| (t.nodes == nodes' && t.members == s.members && t.phase == Preparing(id, cmd, i + 1, true))
          || ((t.nodes == nodes' || t.nodes == s.nodes) && t.members == Erase(s.members, i) && t.phase == s.phase)
          || (t.nodes == s.nodes && t.members == s.members && t.phase == Preparing(id, cmd, i, false)))
  {
    hide Prepare, Erase, WF;
  }

  lemma {:induction false} PreparePhase(s: Sys, o: Outcome)
    requires Inv(s) && s.phase.Preparing? && Calls(s)
    ensures PhaseInv(PrepareCall(s, o))
  {
    var Preparing(id, cmd, i, _) := s.phase;
    var a := s.members[i];
    var n := Prepare(s.nodes[a], id, cmd);
    PrepareShape(s, o);
    assert WF(s) && Ascending(s.members) && a in s.nodes;
    hide Prepared, LogInv, NodesInv, MembersAt, PrepareCall, WF, Erase, Ascending;
    PreparedStep(s.nodes, s.members, id, i, n);
    MembersStay(s, PrepareCall(s, o), a, n, id);
  }

  lemma {:induction false} PrepareKeeps(s: Sys, o: Outcome)
    requires Inv(s) && s.phase.Preparing? && Calls(s)
    ensures Inv(PrepareCall(s, o))
  {
    var Preparing(id, cmd, i, _) := s.phase;
    var a := s.members[i];
    assert id in DiskRecords(s);
    PrepareKeepsNode(s.nodes[a], id, DiskNext(s), s.first, s.cmds, s.commits);
    TouchKeeps(s, PrepareCall(s, o), a, Prepare(s.nodes[a], id, cmd));
    PreparePhase(s, o);
  }

  lemma DecideKeeps(s: Sys, id: nat, commit: bool, after: After)
    requires WF(s) && LogInv(s) && NodesInv(s) && !s.phase.Down?
    requires DiskRecords(s).Keys == {id}
    requires if commit then id !in s.aborts else id !in s.commits
    requires after.Rest? ==> after.todo == []
    requires after.Client? ==> id in s.cmds && s.cmds[id] == after.cmd
    requires Told(s.nodes, s.members, id, commit, 0, after.Client?)
    ensures Inv(Decide(s, id, commit, after))
  {
    assert id in DiskRecords(s);
    var r := Record(if commit then COMMIT else ABORT, id, s.next);
    LogKeeps(s, Decide(s, id, commit, after), r);
  }

  lemma {:induction false} DecidedKeeps(s: Sys)
    requires Inv(s) && s.phase.Preparing? && !Calls(s)
    ensures Inv(Decided(s))
  {
    var Preparing(id, cmd, i, ok) := s.phase;
    assert id in DiskRecords(s);
    if s.members == [] {
      MemoryKeeps(s, Decided(s));
    } else {
      DecideKeeps(s, id, ok, Client(cmd));
    }
  }

  /** A decision loop after one call: the member called has settled the id, or is gone. */
  lemma ToldStep(nodes: map<Addr, Node>, ms: seq<Addr>, id: nat, commit: bool, i: nat, fresh_: bool, n: Node)
    requires i < |ms| && Ascending(ms) && Told(nodes, ms, id, commit, i, fresh_)
    ensures n.next == id + 1 ==> Told(nodes[ms[i] := n], ms, id, commit, i + 1, fresh_)
    ensures Told(nodes[ms[i] := n], Erase(ms, i), id, commit, i, fresh_)
    ensures Told(nodes, Erase(ms, i), id, commit, i, fresh_)
  {
  }

  /** COMMIT is answered only by a participant that is, or thereby gets, past the id. */
  lemma CommitSettles(n: Node, id: nat, fresh_: bool)
    requires Awaits(n, id, true, fresh_) && CommitAnswer(n, id).Answer?
    ensures Commit(n, id).next == id + 1
  {
  }

  /** What is known of the member that the decision loop calls next. */
  lemma SendingFacts(s: Sys)
    requires Inv(s) && s.phase.Sending? && Calls(s)
    ensures var n := s.nodes[s.members[s.phase.i]];
      && NodeInv(n, DiskNext(s), s.first, s.cmds, s.commits)
      && Awaits(n, s.phase.id, s.phase.commit, s.phase.after.Client?)
      && DiskNext(s) == s.phase.id + 1 && s.phase.id in s.cmds && s.first <= s.phase.id
      && (if s.phase.commit then s.phase.id in s.commits else s.phase.id in s.aborts)
  {
    assert s.phase.id in DiskRecords(s);
  }

  /** How a decision call moves the loop: on to the next member, or by erasing this one. */
  ghost predicate Called(s: Sys, t: Sys, n: Node)
    requires s.phase.Sending? && s.phase.i < |s.members|
  {
    var i := s.phase.i;
    || (t.members == s.members && t.nodes == s.nodes[s.members[i] := n] && n.next == s.phase.id + 1 && t.phase.Sending? &&
        t.phase == Sending(s.phase.id, s.phase.commit, i + 1, t.phase.ret, s.phase.after))
    || (t.members == Erase(s.members, i) && t.phase == s.phase &&
        (t.nodes == s.nodes || t.nodes == s.nodes[s.members[i] := n]))
  }

  lemma CalledPhase(s: Sys, t: Sys, n: Node)
    requires WF(s) && PhaseInv(s) && WF(t) && s.phase.Sending? && Calls(s) && Called(s, t, n)
    requires DiskRecords(t) == DiskRecords(s) && t.cmds == s.cmds
    ensures PhaseInv(t)
  {
    var Sending(id, commit, i, _, after) := s.phase;
    assert Ascending(s.members);
    hide Told, OnTheRecord, WF, Ascending, Erase;
    ToldStep(s.nodes, s.members, id, commit, i, after.Client?, n);
  }

  /** A decision call, given what it does to the participant. */
  lemma {:induction false} CalledKeeps(s: Sys, t: Sys, n: Node)
    requires Inv(s) && s.phase.Sending? && Calls(s) && WF(t) && Called(s, t, n)
    requires NodeInv(n, DiskNext(s), s.first, s.cmds, s.commits)
    requires if s.phase.commit then s.phase.id in s.commits else s.phase.id in s.aborts
    requires t == s.(nodes := t.nodes, members := t.members, phase := t.phase, sent := s.sent + {(s.phase.id,
        s.phase.commit)})
    ensures Inv(t)
  {
    hide NodeInv, NodesInv, LogInv, WF, Erase, PhaseInv;
    TouchKeeps(s, t, s.members[s.phase.i], n);
    CalledPhase(s, t, n);
  }

  /** What a COMMIT call changes, whatever COMMIT does. */
  lemma CommitShape(s: Sys, o: Outcome)
    requires WF(s) && s.phase.Sending? && s.phase.commit && Calls(s)
    requires var n := s.nodes[s.members[s.phase.i]];
      CommitAnswer(n, s.phase.id).Answer? ==> Commit(n, s.phase.id).next == s.phase.id + 1
    ensures var t := CommitCall(s, o);
      && Called(s, t, Commit(s.nodes[s.members[s.phase.i]], s.phase.id))
      && t == s.(nodes := t.nodes, members := t.members, phase := t.phase, sent := s.sent + {(s.phase.id,
          s.phase.commit)})
  {
    hide Commit, CommitAnswer, Erase, WF;
  }

  lemma {:induction false} CommitCallKeeps(s: Sys, o: Outcome)
    requires Inv(s) && s.phase.Sending? && s.phase.commit && Calls(s)
    ensures Inv(CommitCall(s, o))
  {
    SendingFacts(s);
    var a := s.members[s.phase.i];
    assert WF(s);
    hide Inv, NodeInv, Commit, CommitAnswer, Awaits, CommitCall, Called;
    CommitKeepsNode(s.nodes[a], s.phase.id, DiskNext(s), s.first, s.cmds, s.commits);
    if CommitAnswer(s.nodes[a], s.phase.id).Answer? {
      CommitSettles(s.nodes[a], s.phase.id, s.phase.after.Client?);
    }
    CommitShape(s, o);
    CalledKeeps(s, CommitCall(s, o), Commit(s.nodes[a], s.phase.id));
  }

  lemma AbortSettles(n: Node, id: nat, fresh_: bool)
    requires Awaits(n, id, false, fresh_)
    ensures Abort(n, id).next == id + 1
  {
  }

  /** What an ABORT call changes, whatever ABORT does. */
  lemma AbortShape(s: Sys, o: Outcome)
    requires WF(s) && s.phase.Sending? && !s.phase.commit && Calls(s)
    requires Abort(s.nodes[s.members[s.phase.i]], s.phase.id).next == s.phase.id + 1
    ensures var t := AbortCall(s, o);
      && Called(s, t, Abort(s.nodes[s.members[s.phase.i]], s.phase.id))
      && t == s.(nodes := t.nodes, members := t.members, phase := t.phase, sent := s.sent + {(s.phase.id,
          s.phase.commit)})
  {
    hide Abort, Erase, WF;
  }

  lemma {:induction false} AbortCallKeeps(s: Sys, o: Outcome)
    requires Inv(s) && s.phase.Sending? && !s.phase.commit && Calls(s)
    ensures Inv(AbortCall(s, o))
  {
    SendingFacts(s);
    var a := s.members[s.phase.i];
    assert WF(s);
    hide Inv, NodeInv, Abort, Awaits, AbortCall, Called;
    AbortKeepsNode(s.nodes[a], s.phase.id, DiskNext(s), s.first, s.cmds, s.commits);
    AbortSettles(s.nodes[a], s.phase.id, s.phase.after.Client?);
    AbortShape(s, o);
    CalledKeeps(s, AbortCall(s, o), Abort(s.nodes[a], s.phase.id));
  }

  lemma FinishedKeeps(s: Sys)
    requires Inv(s) && s.phase.Sending? && !Calls(s)
    ensures Inv(Finished(s))
  {
    hide NodesInv, Appended, Absorb;
    var Sending(id, commit, i, ret, after) := s.phase;
    assert id in DiskRecords(s);
    var t := Finished(s);
    if s.members == [] {
      hide LogInv;
      MemoryKeeps(s, t);
    } else {
      hide LogInv;
      LogKeeps(s, t, Record(if commit then COMMIT_DONE else ABORT_DONE, id, s.next));
      forall a | a in t.members ensures t.nodes[a].next == DiskNext(t) {
        var j :| 0 <= j < |s.members| && s.members[j] == a;
      }
    }
  }

  lemma UnfinishedKeeps(s: Sys)
    requires Inv(s) && s.phase.Unfinished?
    ensures Inv(NextUnfinished(s))
  {
    hide NodesInv, Decide;
    var todo := s.phase.todo;
    if todo == [] {
      MemoryKeeps(s, NextUnfinished(s));
    } else {
      var r := todo[0];
      assert r.id in DiskRecords(s);
      DecideKeeps(s, r.id, r.status == COMMIT, Rest(todo[1..]));
    }
  }

  lemma AdmitKeeps(s: Sys, a: Addr)
    requires WF(s) && LogInv(s) && NodesInv(s) && Quiet(s) && !s.phase.Down? && a in s.conf
    requires || s.nodes[a].next == DiskNext(s)
             || (s.nodes[a].next + 1 == DiskNext(s) && OnlyRecord(s, s.nodes[a].next, UNRESOLVED))
    ensures Inv(Admit(s, a))
  {
    SortedUnfinished(s);
    var t := Admit(s, a);
    MemoryKeeps(s, t);
    if DiskRecords(s) != map[] {
      assert s.members == [];
    }
  }

  lemma {:induction false} AskKeeps(s: Sys, o: Outcome)
    requires Inv(s) && s.phase.Asking?
    ensures Inv(AskCall(s, o))
  {
    var a := s.phase.a;
    var q := s.nodes[a].next;
    SortedUnfinished(s);
    if o.Done? && (q == s.next || (q + 1 == s.next && q in s.records && s.records[q].status == UNRESOLVED)) {
      AdmitKeeps(s, a);
    } else {
      MemoryKeeps(s, AskCall(s, o));
    }
  }

  /** RECOVER rewrites one store and no id. */
  lemma StoreKeeps(s: Sys, t: Sys, a: Addr, st: Store)
    requires LogInv(s) && NodesInv(s) && Quiet(s) && s.members != [] && !s.phase.Down?
    requires WF(t) && a in s.nodes
    requires t.nodes == s.nodes || t.nodes == s.nodes[a := s.nodes[a].(store := st)]
    requires t == s.(nodes := t.nodes, phase := t.phase)
    requires t.phase.Idle? || t.phase.Renumbering?
    ensures Inv(t)
  {
    var n := s.nodes[a].(store := st);
    assert NodeInv(n, DiskNext(s), s.first, s.cmds, s.commits);
    TouchKeeps(s, t, a, n);
    assert MembersAt(t, DiskNext(s));
  }

  /** What RECOVER changes, whatever it installs. */
  lemma RestoreShape(s: Sys, o: Outcome)
    requires WF(s) && s.phase.Restoring?
    ensures var Restoring(a, snapshot) := s.phase;
      var t := RestoreCall(s, o);
      && (t.nodes == s.nodes ||
          t.nodes == s.nodes[a := s.nodes[a].(store := Snapshot.Recover(snapshot, s.delKeys, s.nodes[a].store).store)])
      && t == s.(nodes := t.nodes, phase := t.phase)
      && (t.phase.Idle? || t.phase.Renumbering?)
  {
    hide Snapshot.Recover, WF;
  }

  lemma {:induction false} RestoreKeeps(s: Sys, o: Outcome)
    requires Inv(s) && s.phase.Restoring?
    ensures Inv(RestoreCall(s, o))
  {
    RestoreShape(s, o);
    assert WF(s) && LogInv(s) && NodesInv(s) && Quiet(s) && s.members != [] && s.phase.a in s.nodes;
    hide Inv, WF, LogInv, NodesInv, Quiet, RestoreCall, Snapshot.Recover, Snapshot.Encode;
    var Restoring(a, snapshot) := s.phase;
    StoreKeeps(s, RestoreCall(s, o), a, Snapshot.Recover(snapshot, s.delKeys, s.nodes[a].store).store);
  }

  /** The state after SET_NEXT_ID on the participant being recovered, whatever the phase becomes next. */
  lemma {:induction false} RenumberTouches(s: Sys, t: Sys)
    requires Inv(s) && s.phase.Renumbering? && !t.phase.Down?
    requires t == s.(nodes := t.nodes, phase := t.phase)
    requires t.nodes == s.nodes || t.nodes == s.nodes[s.phase.a := SetNextId(s.nodes[s.phase.a], s.next)]
    ensures LogInv(t) && NodesInv(t) && Quiet(t)
    ensures DiskNext(t) == DiskNext(s) == s.next
  {
    var a := s.phase.a;
    var n := SetNextId(s.nodes[a], s.next);
    assert NodeInv(n, DiskNext(s), s.first, s.cmds, s.commits);
    TouchKeeps(s, t, a, n);
    hide LogInv, NodesInv, NodeInv;
  }

  lemma {:induction false} RenumberKeeps(s: Sys, o: Outcome)
    requires Inv(s) && s.phase.Renumbering?
    ensures Inv(RenumberCall(s, o))
  {
    var a := s.phase.a;
    var t := s.(nodes := s.nodes[a := SetNextId(s.nodes[a], s.next)]);
    assert WF(s) && a in s.conf && a in s.nodes && t.nodes[a].next == s.next;
    assert WF(t);
    if o.Done? {
      RenumberTouches(s, t);
      hide WF, LogInv, NodesInv, Quiet, SortedRecords, Insert, Admit;
      AdmitKeeps(t, a);
    } else {
      var u := RenumberCall(s, o);
      assert WF(u) && u.phase.Idle?;
      hide WF, LogInv, NodesInv, Quiet;
      RenumberTouches(s, u);
    }
  }

  lemma StartKeeps(s: Sys, o: Outcome)
    requires Inv(s) && s.phase.Starting? && Calls(s)
    ensures Inv(StartCall(s, o))
  {
    assert s.next !in s.records;
    MemoryKeeps(s, StartCall(s, o));
  }

  lemma StartedKeeps(s: Sys)
    requires Inv(s) && s.phase.Starting?
    ensures Inv(s.(phase := Unfinished(SortedRecords(s.records))))
  {
    SortedUnfinished(s);
    MemoryKeeps(s, s.(phase := Unfinished(SortedRecords(s.records))));
  }

  /** Removing members, whatever the phase becomes next. */
  lemma FewerMembersKeep(s: Sys, t: Sys)
    requires Inv(s) && WF(t) && Quiet(s) && !s.phase.Down?
    requires t == s.(members := t.members, phase := t.phase, out := t.out)
    requires forall a :: a in t.members ==> a in s.members
    requires t.phase.Idle? || t.phase.Getting? || t.phase.Asking? || t.phase.Fetching?
    ensures Inv(t)
  {
    MemoryKeeps(s, t);
    assert t.members != [] ==> t.members[0] in s.members;
  }

  lemma FetchedKeeps(s: Sys)
    requires Inv(s) && s.phase.Fetching? && s.members != []
    ensures Inv(FetchCall(s, Done))
  {
    MemoryKeeps(s, FetchCall(s, Done));
  }

  lemma CrashKeeps(s: Sys)
    requires Inv(s)
    ensures Inv(DoCrash(s))
  {
  }

  lemma BootKeeps(s: Sys)
    requires Inv(s) && s.phase.Down?
    ensures Inv(DoBoot(s))
  {
  }

  lemma {:induction false} CallKeeps(s: Sys, o: Outcome)
    requires Inv(s) && Enabled(s, Call(o))
    ensures Inv(DoCall(s, o))
  {
    hide PrepareCall, CommitCall, AbortCall, AskCall, RestoreCall, RenumberCall, StartCall, LogInv, NodesInv;
    match s.phase
    case Getting(_) => FewerMembersKeep(s, GetCall(s, o));
    case Preparing(_, _, _, _) => PrepareKeeps(s, o);
    case Sending(_, commit, _, _, _) => if commit { CommitCallKeeps(s, o); } else { AbortCallKeeps(s, o); }
    case Asking(_) => AskKeeps(s, o);
    case Fetching(_) => if o.Done? { FetchedKeeps(s); } else { FewerMembersKeep(s, FetchCall(s, o)); }
    case Restoring(_, _) => RestoreKeeps(s, o);
    case Renumbering(_) => RenumberKeeps(s, o);
    case Starting(_) => StartKeeps(s, o);
    case _ =>
  }

  lemma LocalKeeps(s: Sys)
    requires Inv(s) && Enabled(s, Local)
    ensures Inv(DoLocal(s))
  {
    match s.phase
    case Preparing(_, _, _, _) => DecidedKeeps(s);
    case Sending(_, _, _, _, _) => FinishedKeeps(s);
    case Unfinished(_) => UnfinishedKeeps(s);
    case Starting(_) => StartedKeeps(s);
    case Fetching(_) => FewerMembersKeep(s, DoLocal(s));
    case _ =>
  }

  /** Every step keeps the invariant. */
  lemma {:induction false} StepKeeps(s: Sys, l: Label)
    requires Inv(s)
    ensures Inv(Step(s, l))
  {
    if Enabled(s, l) {
      match l
      case Get(_) => FewerMembersKeep(s, Step(s, l));
      case Update(cmd) => UpdateKeeps(s, cmd);
      case Beat(_) => FewerMembersKeep(s, Step(s, l));
      case BeatFail(_) => FewerMembersKeep(s, Step(s, l));
      case Call(o) => CallKeeps(s, o);
      case Local => LocalKeeps(s);
      case Crash => CrashKeeps(s);
      case Boot => BootKeeps(s);
    }
  }

  lemma {:induction false} RunKeeps(s: Sys, ls: seq<Label>)
    requires Inv(s)
    ensures Inv(Exec(s, ls))
    decreases |ls|
  {
    assert Exec(s, []) == s;
    hide Inv, Step;
    if ls == [] {
    } else {
      RunKeeps(s, ls[..|ls| - 1]);
      StepKeeps(Exec(s, ls[..|ls| - 1]), ls[|ls| - 1]);
    }
  }
}
