/**
 * What the stores of the participants hold. Two forms of one invariant are proved together:
 * with `strict`, stores of current participants equal the committed store; this is kept by every
 * step of one coordinator lifetime. Without it, they contain the committed store; this is also
 * kept by crashes and restarts of the coordinator.
 */
module Agreement {
  import opened KeyValue
  import opened RecordLog
  import opened Participants
  import opened Protocol
  import opened Decisions
  import opened Snapshot

  // ----- the committed store

  /** The commands with ids from lo up to hi that are committed, applied in id order. */
  ghost function Fold(base: Store, cmds: map<nat, Command>, commits: set<nat>, lo: nat, hi: nat): Store
    decreases hi
  {
    if hi <= lo then base
    else
      var st := Fold(base, cmds, commits, lo, hi - 1);
      if hi - 1 in commits && hi - 1 in cmds then Apply(cmds[hi - 1], st) else st
  }

  /** The store that the logged COMMIT decisions define. */
  ghost function Committed(s: Sys): Store {
    Fold(s.base, s.cmds, s.commits, s.first, DiskNext(s))
  }

  /** The same without the latest id. */
  ghost function Before(s: Sys): Store {
    Fold(s.base, s.cmds, s.commits, s.first, if DiskNext(s) == 0 then 0 else DiskNext(s) - 1)
  }

  lemma {:induction false} FoldFrame(base: Store, cmds: map<nat, Command>, cmds': map<nat, Command>,
      commits: set<nat>, commits': set<nat>, lo: nat, hi: nat)
    requires forall i :: lo <= i < hi ==> (i in commits <==> i in commits') && (i in cmds <==> i in cmds')
    requires forall i :: lo <= i < hi && i in cmds && i in cmds' ==> cmds[i] == cmds'[i]
    ensures Fold(base, cmds, commits, lo, hi) == Fold(base, cmds', commits', lo, hi)
    decreases hi
  {
    if hi <= lo {
    } else {
      FoldFrame(base, cmds, cmds', commits, commits', lo, hi - 1);
    }
  }

  // ----- stores that match

  ghost predicate Contains(st: Store, c: Store) {
    forall k :: k in c ==> k in st && st[k] == c[k]
  }

  ghost predicate Match(strict: bool, st: Store, c: Store) {
    if strict then st == c else Contains(st, c)
  }

  lemma MatchApply(strict: bool, cmd: Command, st: Store, c: Store)
    requires Match(strict, st, c)
    ensures Match(strict, Apply(cmd, st), Apply(cmd, c))
  {
  }

  lemma MatchOverlay(strict: bool, st: Store, dels: set<string>, donor: Store, c: Store)
    requires Match(strict, donor, c)
    requires strict ==> st.Keys <= c.Keys + dels
    ensures Match(strict, (st - dels) + donor, c)
  {
    if strict {
      assert ((st - dels) + donor).Keys == c.Keys;
    }
  }

  // ----- the invariant

  /** How far the latest id has got: finished, without a decision, or with one that is being sent. */
  datatype Stage = Closed | Unresolved | Resolved

  ghost function StageOf(m: map<nat, Record>, next: nat): Stage
    requires 0 < next
  {
    if next - 1 !in m then Closed else if m[next - 1].status == UNRESOLVED then Unresolved else Resolved
  }

  ghost predicate NodeAgrees(strict: bool, n: Node, next: nat, stage: Stage, c: Store, prev: Store, doomed: set<string>) {
    && (n.next == next ==> !stage.Unresolved? && Match(strict, n.store, c))
    && (n.next + 1 == next && !stage.Closed? ==> Match(strict, n.store, prev))
    && (strict ==> n.store.Keys <= c.Keys + doomed)
    && SmallStore(n.store)
  }

  ghost predicate NodesAgree(strict: bool, nodes: map<Addr, Node>, next: nat, stage: Stage, c: Store, prev: Store,
      doomed: set<string>) {
    forall a :: a in nodes ==> NodeAgrees(strict, nodes[a], next, stage, c, prev, doomed)
  }

  /** The keys that a recovery deletes, together with those of a DEL being sent out. */
  ghost function Doomed(s: Sys): set<string> {
    if s.phase.Sending? && s.phase.commit && s.phase.after.Client? && s.phase.after.cmd.Del?
    then s.delKeys + KeySet(s.phase.after.cmd.keys) else s.delKeys
  }

  ghost predicate SmallCommands(cmds: map<nat, Command>) {
    forall i :: i in cmds ==> SmallCommand(cmds[i])
  }

  ghost predicate PhaseAgrees(strict: bool, p: Phase, nodes: map<Addr, Node>, c: Store, prev: Store) {
    match p
    case Sending(_, commit, i, ret, after) =>
      strict && commit && after.Client? ==> ret == if i == 0 then "" else Reply(after.cmd, prev)
    case Renumbering(a) => a in nodes && Match(strict, nodes[a].store, c)
    case _ => true
  }

  ghost predicate Stores(strict: bool, s: Sys) {
    && 0 < DiskNext(s)
    && NodesAgree(strict, s.nodes, DiskNext(s), StageOf(DiskRecords(s), DiskNext(s)), Committed(s), Before(s), Doomed(s))
    && SmallCommands(s.cmds)
    && PhaseAgrees(strict, s.phase, s.nodes, Committed(s), Before(s))
  }

  ghost predicate Agree(strict: bool, s: Sys) {
    Inv(s) && Stores(strict, s)
  }

  ghost predicate WithinLimit(l: Label) {
    l.Update? ==> SmallCommand(l.cmd)
  }

  // ----- small facts

  /** The latest id makes a difference only once it is committed. */
  lemma CommittedIsNext(s: Sys)
    requires LogInv(s)
    ensures var i := DiskNext(s) - 1;
            Committed(s) == if i in s.commits then Apply(s.cmds[i], Before(s)) else Before(s)
  {
    var i := DiskNext(s) - 1;
    if i in s.commits {
      assert i in s.cmds;
    }
  }

  ghost function SetOf(ms: seq<Addr>): set<Addr> {
    set a | a in ms
  }

  lemma {:induction false} AscendingSize(ms: seq<Addr>)
    requires Ascending(ms)
    ensures |SetOf(ms)| == |ms|
  {
    if ms == [] {
    } else {
      var n := |ms| - 1;
      AscendingSize(ms[..n]);
      assert ms == ms[..n] + [ms[n]];
      assert SetOf(ms) == SetOf(ms[..n]) + {ms[n]};
      assert ms[n] !in ms[..n];
    }
  }

  lemma {:induction false} SetOfSize(ms: seq<Addr>)
    ensures |SetOf(ms)| <= |ms|
  {
    if ms == [] {
    } else {
      var n := |ms| - 1;
      SetOfSize(ms[..n]);
      assert ms == ms[..n] + [ms[n]];
      assert SetOf(ms) == SetOf(ms[..n]) + {ms[n]};
    }
  }

  lemma SubsetOfSameSize(a: set<Addr>, b: set<Addr>)
    requires a <= b && |b| <= |a|
    ensures a == b
  {
    if x :| x in b && x !in a {
      assert a <= b - {x};
      SubsetSize(a, b - {x});
    }
  }

  lemma SubsetSize<T>(a: set<T>, b: set<T>)
    requires a <= b
    ensures |a| <= |b|
  {
    if x :| x in a {
      SubsetSize(a - {x}, b - {x});
    }
  }

  /** As many members as configured addresses: every participant is a member. */
  lemma FullMembership(s: Sys)
    requires WF(s) && |s.conf| <= |s.members|
    ensures forall a :: a in s.nodes ==> a in s.members
  {
    AscendingSize(s.members);
    SetOfSize(s.conf);
    assert SetOf(s.members) <= SetOf(s.conf);
    SubsetOfSameSize(SetOf(s.members), SetOf(s.conf));
    assert forall a :: a in s.nodes ==> a in SetOf(s.conf);
  }

  // ----- frames

  /** A step that writes no record and gives out no id keeps the committed store. */
  lemma SameCommitted(s: Sys, t: Sys)
    requires 0 < DiskNext(s)
    requires t.disk == s.disk && t.base == s.base && t.first == s.first && t.cmds == s.cmds && t.commits == s.commits
    ensures DiskNext(t) == DiskNext(s) && DiskRecords(t) == DiskRecords(s)
    ensures Committed(t) == Committed(s) && Before(t) == Before(s)
  {
  }

  lemma NodesTouch(strict: bool, nodes: map<Addr, Node>, nodes': map<Addr, Node>, a: Addr, n: Node,
                   next: nat, stage: Stage, c: Store, prev: Store, doomed: set<string>, doomed': set<string>)
    requires NodesAgree(strict, nodes, next, stage, c, prev, doomed)
    requires nodes' == nodes || (nodes' == nodes[a := n] && NodeAgrees(strict, n, next, stage, c, prev, doomed))
    requires strict ==> doomed <= doomed'
    ensures NodesAgree(strict, nodes', next, stage, c, prev, doomed')
  {
  }

  /** At most one participant changes, to a state that agrees. */
  lemma TouchAgrees(strict: bool, s: Sys, t: Sys, a: Addr, n: Node)
    requires Stores(strict, s)
    requires t.disk == s.disk && t.base == s.base && t.first == s.first && t.cmds == s.cmds && t.commits == s.commits
    requires t.nodes == s.nodes ||
             (t.nodes == s.nodes[a := n] &&
              NodeAgrees(strict, n, DiskNext(s), StageOf(DiskRecords(s), DiskNext(s)), Committed(s), Before(s),
                  Doomed(s)))
    requires strict ==> Doomed(s) <= Doomed(t)
    requires PhaseAgrees(strict, t.phase, t.nodes, Committed(s), Before(s))
    ensures Stores(strict, t)
  {
    SameCommitted(s, t);
    NodesTouch(strict, s.nodes, t.nodes, a, n, DiskNext(s), StageOf(DiskRecords(s), DiskNext(s)), Committed(s),
        Before(s), Doomed(s), Doomed(t));
  }

  /** No participant changes. */
  lemma MemoryAgrees(strict: bool, s: Sys, t: Sys)
    requires Stores(strict, s)
    requires t.disk == s.disk && t.base == s.base && t.first == s.first && t.cmds == s.cmds && t.commits == s.commits
    requires t.nodes == s.nodes
    requires strict ==> Doomed(s) <= Doomed(t)
    requires PhaseAgrees(strict, t.phase, t.nodes, Committed(s), Before(s))
    ensures Stores(strict, t)
  {
    SameCommitted(s, t);
    NodesTouch(strict, s.nodes, t.nodes, 0, Node(0, map[], map[], []), DiskNext(s), StageOf(DiskRecords(s),
        DiskNext(s)), Committed(s), Before(s), Doomed(s), Doomed(t));
  }

  /** With every participant a member and current, nothing is left to delete at a recovery. */
  lemma {:induction false} NothingDoomed(s: Sys, t: Sys)
    requires Stores(true, s) && WF(t) && |t.conf| <= |t.members|
    requires t.disk == s.disk && t.base == s.base && t.first == s.first && t.cmds == s.cmds && t.commits == s.commits
    requires t.nodes == s.nodes
    requires forall a :: a in t.members && a in t.nodes ==> t.nodes[a].store.Keys <= Committed(s).Keys
    requires PhaseAgrees(true, t.phase, t.nodes, Committed(s), Before(s))
    ensures Stores(true, t)
  {
    SameCommitted(s, t);
    FullMembership(t);
    forall a | a in t.nodes
      ensures NodeAgrees(true, t.nodes[a], DiskNext(t), StageOf(DiskRecords(t), DiskNext(t)), Committed(t),
          Before(t), Doomed(t))
    {
      assert NodeAgrees(true, s.nodes[a], DiskNext(s), StageOf(DiskRecords(s), DiskNext(s)), Committed(s),
          Before(s), Doomed(s));
    }
  }

  /** What the invariant says of one participant. */
  lemma NodeFacts(strict: bool, s: Sys, a: Addr)
    requires Agree(strict, s) && a in s.nodes
    ensures NodeAgrees(strict, s.nodes[a], DiskNext(s), StageOf(DiskRecords(s), DiskNext(s)), Committed(s),
        Before(s), Doomed(s))
    ensures NodeInv(s.nodes[a], DiskNext(s), s.first, s.cmds, s.commits)
  {
  }

  // ----- client requests

  lemma NewIdAgrees(strict: bool, nodes: map<Addr, Node>, next: nat, stage: Stage, c: Store, prev: Store,
      doomed: set<string>)
    requires NodesAgree(strict, nodes, next, stage, c, prev, doomed)
    requires forall a :: a in nodes ==> nodes[a].next <= next
    ensures NodesAgree(strict, nodes, next + 1, Unresolved, c, c, doomed)
  {
    forall a | a in nodes ensures NodeAgrees(strict, nodes[a], next + 1, Unresolved, c, c, doomed) {
      assert NodeAgrees(strict, nodes[a], next, stage, c, prev, doomed);
    }
  }

  lemma NodesBounded(s: Sys)
    requires NodesInv(s)
    ensures forall a :: a in s.nodes ==> s.nodes[a].next <= DiskNext(s)
  {
    forall a | a in s.nodes ensures s.nodes[a].next <= DiskNext(s) {
      assert NodeInv(s.nodes[a], DiskNext(s), s.first, s.cmds, s.commits);
    }
  }

  lemma NewIdCommitted(s: Sys, cmd: Command)
    requires LogInv(s) && s.phase.Idle? && s.members != [] && WF(s)
    ensures var t := BeginUpdate(s, cmd);
      && DiskNext(t) == DiskNext(s) + 1 && StageOf(DiskRecords(t), DiskNext(t)) == Unresolved
      && Committed(t) == Committed(s) && Before(t) == Committed(s)
      && t.cmds == s.cmds[s.next := cmd] && t.nodes == s.nodes && t.delKeys == s.delKeys && t.phase.Preparing?
  {
    var t := BeginUpdate(s, cmd);
    var id := s.next;
    LogFacts(s.(next := id + 1, cmds := s.cmds[id := cmd]), Record(UNRESOLVED, id, id + 1));
    FoldFrame(s.base, s.cmds, t.cmds, s.commits, t.commits, s.first, id);
    assert id !in t.commits;
  }

  lemma NewIdStores(strict: bool, s: Sys, t: Sys, cmd: Command)
    requires Stores(strict, s) && NodesInv(s) && s.phase.Idle? && SmallCommand(cmd)
    requires DiskNext(t) == DiskNext(s) + 1 && StageOf(DiskRecords(t), DiskNext(t)) == Unresolved
    requires Committed(t) == Committed(s) && Before(t) == Committed(s)
    requires t.cmds == s.cmds[s.next := cmd] && t.nodes == s.nodes && t.delKeys == s.delKeys && t.phase.Preparing?
    ensures Stores(strict, t)
  {
    NodesBounded(s);
    NewIdAgrees(strict, s.nodes, DiskNext(s), StageOf(DiskRecords(s), DiskNext(s)), Committed(s), Before(s), Doomed(s));
  }

  lemma UpdateAgrees(strict: bool, s: Sys, cmd: Command)
    requires Agree(strict, s) && s.phase.Idle? && SmallCommand(cmd)
    ensures Stores(strict, BeginUpdate(s, cmd))
  {
    var t := BeginUpdate(s, cmd);
    if s.members == [] {
      MemoryAgrees(strict, s, t);
    } else {
      NewIdCommitted(s, cmd);
      NewIdStores(strict, s, t, cmd);
    }
  }

  lemma {:induction false} PrepareAgrees(strict: bool, s: Sys, o: Outcome)
    requires Agree(strict, s) && s.phase.Preparing? && Calls(s)
    ensures Stores(strict, PrepareCall(s, o))
  {
    var a := s.members[s.phase.i];
    NodeFacts(strict, s, a);
    PrepareShape(s, o);
    hide Inv, PrepareCall, NodesAgree, WF;
    TouchAgrees(strict, s, PrepareCall(s, o), a, Prepare(s.nodes[a], s.phase.id, s.phase.cmd));
  }

  // ----- decisions

  /** Deciding the open id: participants past it, or behind it, keep what is asked of them. */
  lemma NodesDecide(strict: bool, nodes: map<Addr, Node>, next: nat, stage: Stage, c: Store, c': Store,
      prev: Store, doomed: set<string>, doomed': set<string>)
    requires NodesAgree(strict, nodes, next, stage, c, prev, doomed) && !stage.Closed?
    requires c' == c || stage.Unresolved?
    requires strict ==> c.Keys + doomed <= c'.Keys + doomed'
    ensures NodesAgree(strict, nodes, next, Resolved, c', prev, doomed')
  {
    forall a | a in nodes ensures NodeAgrees(strict, nodes[a], next, Resolved, c', prev, doomed') {
      assert NodeAgrees(strict, nodes[a], next, stage, c, prev, doomed);
    }
  }

  lemma DecidedStore(s: Sys, id: nat, commit: bool, after: After)
    requires LogInv(s) && !s.phase.Down? && DiskRecords(s).Keys == {id}
    requires if commit then id !in s.aborts else id !in s.commits
    ensures var t := Decide(s, id, commit, after);
      && DiskNext(t) == DiskNext(s) == id + 1
      && StageOf(DiskRecords(t), DiskNext(t)) == Resolved && Before(t) == Before(s)
      && id in s.cmds
      && Committed(s) == (if id in s.commits then Apply(s.cmds[id], Before(s)) else Before(s))
      && Committed(t) == (if commit then Apply(s.cmds[id], Before(s)) else Before(s))
  {
    assert id in DiskRecords(s);
    var t := Decide(s, id, commit, after);
    LogFacts(s, Record(if commit then COMMIT else ABORT, id, s.next));
    FoldFrame(s.base, s.cmds, t.cmds, s.commits, t.commits, s.first, id);
    CommittedIsNext(s);
    assert t.cmds == s.cmds;
    assert id in t.commits <==> commit;
  }

  lemma DecideAgrees(strict: bool, s: Sys, id: nat, commit: bool, after: After)
    requires LogInv(s) && Stores(strict, s) && !s.phase.Down? && !s.phase.Sending?
    requires DiskRecords(s).Keys == {id}
    requires if commit then id !in s.aborts else id !in s.commits
    requires after.Client? ==> DiskRecords(s)[id].status == UNRESOLVED && id in s.cmds && s.cmds[id] == after.cmd
    requires after.Rest? && commit ==> id in s.commits
    ensures Stores(strict, Decide(s, id, commit, after))
  {
    DecidedStore(s, id, commit, after);
    assert id in DiskRecords(s);
    var t := Decide(s, id, commit, after);
    NodesDecide(strict, s.nodes, DiskNext(s), StageOf(DiskRecords(s), DiskNext(s)), Committed(s), Committed(t),
        Before(s), Doomed(s), Doomed(t));
  }

  lemma {:induction false} DecidedAgrees(strict: bool, s: Sys)
    requires Agree(strict, s) && s.phase.Preparing? && !Calls(s)
    ensures Stores(strict, Decided(s))
  {
    var id := s.phase.id;
    assert id in DiskRecords(s);
    if s.members == [] {
      MemoryAgrees(strict, s, Decided(s));
    } else {
      DecideAgrees(strict, s, id, s.phase.ok, Client(s.phase.cmd));
    }
  }

  lemma UnfinishedAgrees(strict: bool, s: Sys)
    requires Agree(strict, s) && s.phase.Unfinished?
    ensures Stores(strict, NextUnfinished(s))
  {
    var todo := s.phase.todo;
    if todo == [] {
      MemoryAgrees(strict, s, NextUnfinished(s));
    } else {
      assert todo[0].id in DiskRecords(s);
      DecideAgrees(strict, s, todo[0].id, todo[0].status == COMMIT, Rest(todo[1..]));
    }
  }

  /** COMMIT executed on one participant. */
  lemma CommitAgrees(strict: bool, n: Node, id: nat, cmd: Command, c: Store, prev: Store, doomed: set<string>)
    requires NodeAgrees(strict, n, id + 1, Resolved, c, prev, doomed)
    requires id in n.pending ==> n.pending[id] == cmd
    requires SmallCommand(cmd) && c == Apply(cmd, prev)
    ensures NodeAgrees(strict, Commit(n, id), id + 1, Resolved, c, prev, doomed)
    ensures strict && CommitAnswer(n, id).Answer? && n.next == id ==> CommitAnswer(n, id).text == Reply(cmd, prev)
  {
    if Applies(n, id) {
      MatchApply(strict, cmd, n.store, prev);
    }
  }

  /** What is known of the member that COMMIT is sent to next. */
  lemma {:induction false} CommitFacts(strict: bool, s: Sys)
    requires Agree(strict, s) && s.phase.Sending? && s.phase.commit && Calls(s)
    ensures var Sending(id, _, i, _, after) := s.phase;
      && WF(s) && s.members[i] in s.nodes && id in s.cmds && SmallCommand(s.cmds[id])
      && DiskNext(s) == id + 1 && StageOf(DiskRecords(s), DiskNext(s)) == Resolved
      && Committed(s) == Apply(s.cmds[id], Before(s))
      && var n := s.nodes[s.members[i]];
         && NodeAgrees(strict, n, id + 1, Resolved, Committed(s), Before(s), Doomed(s))
         && (id in n.pending ==> n.pending[id] == s.cmds[id])
         && (after.Client? ==> n.next == id && s.cmds[id] == after.cmd)
  {
    assert s.phase.id in DiskRecords(s);
    SendingFacts(s);
    NodeFacts(strict, s, s.members[s.phase.i]);
    CommittedIsNext(s);
    hide NodesAgree, PhaseAgrees, Committed, Before, Doomed, NodeAgrees;
  }

  /** What a COMMIT call changes, whatever COMMIT does and answers. */
  lemma CommitMoves(s: Sys, o: Outcome)
    requires WF(s) && s.phase.Sending? && s.phase.commit && Calls(s)
    ensures var t := CommitCall(s, o);
      var a := s.members[s.phase.i];
      var answer := CommitAnswer(s.nodes[a], s.phase.id);
      && t == s.(nodes := t.nodes, members := t.members, sent := t.sent, phase := t.phase)
      && (t.nodes == s.nodes || t.nodes == s.nodes[a := Commit(s.nodes[a], s.phase.id)])
      && (|| t.phase == s.phase
          || (answer.Answer? &&
              t.phase == s.phase.(i := s.phase.i + 1, ret := if s.phase.ret == "" then answer.text else s.phase.ret)))
  {
    hide Commit, CommitAnswer, Erase, Ascending;
  }

  lemma {:induction false} CommitCallAgrees(strict: bool, s: Sys, o: Outcome)
    requires Agree(strict, s) && s.phase.Sending? && s.phase.commit && Calls(s)
    ensures Stores(strict, CommitCall(s, o))
  {
    hide Inv, WF, Stores, NodeAgrees, Committed, Before, Doomed, Commit, CommitAnswer, CommitCall, Apply, Reply, StageOf;
    CommitFacts(strict, s);
    CommitMoves(s, o);
    var id, a := s.phase.id, s.members[s.phase.i];
    var n := s.nodes[a];
    CommitAgrees(strict, n, id, s.cmds[id], Committed(s), Before(s), Doomed(s));
    CalledAgrees(strict, s, CommitCall(s, o), a, Commit(n, id), CommitAnswer(n, id));
  }

  /** A decision call, given what it does to the participant and what it answers. */
  lemma CalledAgrees(strict: bool, s: Sys, t: Sys, a: Addr, n: Node, answer: CommitResult)
    requires Stores(strict, s) && s.phase.Sending? && t.phase.Sending?
    requires t == s.(nodes := t.nodes, members := t.members, sent := t.sent, phase := t.phase)
    requires t.nodes == s.nodes || t.nodes == s.nodes[a := n]
    requires || t.phase == s.phase
             || (answer.Answer? &&
                 t.phase == s.phase.(i := s.phase.i + 1, ret := if s.phase.ret == "" then answer.text else s.phase.ret))
    requires NodeAgrees(strict, n, DiskNext(s), StageOf(DiskRecords(s), DiskNext(s)), Committed(s), Before(s), Doomed(s))
    requires strict && s.phase.commit && s.phase.after.Client? && answer.Answer? ==>
               answer.text == Reply(s.phase.after.cmd, Before(s))
    ensures Stores(strict, t)
  {
    TouchAgrees(strict, s, t, a, n);
  }

  lemma {:induction false} AbortCallAgrees(strict: bool, s: Sys, o: Outcome)
    requires Agree(strict, s) && s.phase.Sending? && !s.phase.commit && Calls(s)
    ensures Stores(strict, AbortCall(s, o))
  {
    hide NodesInv, NodesAgree;
    var Sending(id, _, i, ret, after) := s.phase;
    var a := s.members[i];
    assert id in DiskRecords(s);
    assert Awaits(s.nodes[a], id, false, after.Client?);
    NodeFacts(strict, s, a);
    CommittedIsNext(s);
    TouchAgrees(strict, s, AbortCall(s, o), a, Abort(s.nodes[a], id));
  }

  lemma NodesClose(strict: bool, nodes: map<Addr, Node>, next: nat, stage: Stage, c: Store, prev: Store,
      doomed: set<string>)
    requires NodesAgree(strict, nodes, next, stage, c, prev, doomed)
    ensures NodesAgree(strict, nodes, next, Closed, c, prev, doomed)
  {
    forall a | a in nodes ensures NodeAgrees(strict, nodes[a], next, Closed, c, prev, doomed) {
      assert NodeAgrees(strict, nodes[a], next, stage, c, prev, doomed);
    }
  }

  lemma DoneStore(s: Sys, r: Record)
    requires LogInv(s) && !s.phase.Down? && r.Done() && r.next == s.next && DiskRecords(s).Keys == {r.id}
    ensures var t := Log(s, r);
      && DiskNext(t) == DiskNext(s) && DiskRecords(t) == map[]
      && Committed(t) == Committed(s) && Before(t) == Before(s)
  {
    LogFacts(s, r);
    assert DiskRecords(s) - {r.id} == map[];
  }

  /** The DONE record closes the id; the committed store stays. */
  lemma ClosedAgrees(strict: bool, s: Sys, t: Sys)
    requires Stores(strict, s) && DiskNext(t) == DiskNext(s) && DiskRecords(t) == map[]
    requires Committed(t) == Committed(s) && Before(t) == Before(s)
    requires t.nodes == s.nodes && t.cmds == s.cmds && t.phase == s.phase && t.delKeys == s.delKeys
    ensures Stores(strict, t)
  {
    NodesClose(strict, s.nodes, DiskNext(s), StageOf(DiskRecords(s), DiskNext(s)), Committed(s), Before(s), Doomed(s));
  }

  lemma {:induction false} FinishedAgrees(strict: bool, s: Sys)
    requires Agree(strict, s) && s.phase.Sending? && !Calls(s)
    ensures Stores(strict, Finished(s))
  {
    hide NodesInv, NodesAgree;
    var Sending(id, commit, i, ret, after) := s.phase;
    assert id in DiskRecords(s);
    var t := s;
    if s.members != [] {
      var r := Record(if commit then COMMIT_DONE else ABORT_DONE, id, s.next);
      t := Log(s, r);
      DoneStore(s, r);
      ClosedAgrees(strict, s, t);
    }
    if strict && |s.conf| <= |s.members| {
      forall a | a in t.members && a in t.nodes ensures t.nodes[a].store.Keys <= Committed(t).Keys {
        var j :| 0 <= j < |s.members| && s.members[j] == a;
        NodeFacts(strict, s, a);
      }
      NothingDoomed(t, Finished(s));
    } else {
      MemoryAgrees(strict, t, Finished(s));
    }
  }

  // ----- recovery

  lemma {:induction false} AdmitAgrees(strict: bool, s: Sys, a: Addr)
    requires WF(s) && LogInv(s) && NodesInv(s) && Quiet(s) && Stores(strict, s) && a in s.conf
    requires !s.phase.Sending?
    requires || s.nodes[a].next == DiskNext(s)
             || (s.nodes[a].next + 1 == DiskNext(s) && OnlyRecord(s, s.nodes[a].next, UNRESOLVED))
    ensures Stores(strict, Admit(s, a))
  {
    var t := Admit(s, a);
    if strict && |t.members| == |t.conf| {
      forall x | x in t.members && x in t.nodes ensures t.nodes[x].store.Keys <= Committed(s).Keys {
        assert NodeAgrees(strict, s.nodes[x], DiskNext(s), StageOf(DiskRecords(s), DiskNext(s)), Committed(s),
            Before(s), Doomed(s));
        if s.nodes[x].next != DiskNext(s) {
          var i := s.nodes[a].next;
          assert i in DiskRecords(s);
          CommittedIsNext(s);
        }
      }
      NothingDoomed(s, t);
    } else {
      MemoryAgrees(strict, s, t);
    }
  }

  lemma {:induction false} AskAgrees(strict: bool, s: Sys, o: Outcome)
    requires Agree(strict, s) && s.phase.Asking?
    ensures Stores(strict, AskCall(s, o))
  {
    var a := s.phase.a;
    var q := s.nodes[a].next;
    if o.Done? && (q == s.next || (q + 1 == s.next && q in s.records && s.records[q].status == UNRESOLVED)) {
      SortedUnfinished(s);
      AdmitAgrees(strict, s, a);
    } else {
      MemoryAgrees(strict, s, AskCall(s, o));
    }
  }

  /** RECOVER makes the store match, and never meets malformed bytes. */
  lemma {:induction false} RecoveredMatches(strict: bool, s: Sys)
    requires Agree(strict, s) && s.phase.Restoring?
    ensures var st := s.nodes[s.phase.a].store;
            var r := Snapshot.Recover(s.phase.snapshot, s.delKeys, st);
            r.Recovered? && SmallStore(r.store) && Match(strict, r.store, Committed(s))
  {
    var Restoring(a, snapshot) := s.phase;
    var donor := s.nodes[s.members[0]].store;
    NodeFacts(strict, s, a);
    NodeFacts(strict, s, s.members[0]);
    assert s.members[0] in s.members;
    RecoverRoundTrip(donor, s.delKeys, s.nodes[a].store);
    MatchOverlay(strict, s.nodes[a].store, s.delKeys, donor, Committed(s));
  }

  lemma RestoredAgrees(strict: bool, s: Sys, t: Sys, a: Addr, st: Store)
    requires Stores(strict, s) && a in s.nodes && DiskRecords(s) == map[] && NodesInv(s)
    requires !s.phase.Sending? && SmallStore(st) && Match(strict, st, Committed(s))
    requires t.nodes == s.nodes || t.nodes == s.nodes[a := s.nodes[a].(store := st)]
    requires t == s.(nodes := t.nodes, phase := t.phase)
    requires t.phase.Idle? || (t.phase == Renumbering(a) && t.nodes != s.nodes) || (t.phase == Renumbering(a) &&
        s.nodes[a].store == st)
    ensures Stores(strict, t)
  {
    var n := s.nodes[a].(store := st);
    assert StageOf(DiskRecords(s), DiskNext(s)) == Closed;
    TouchAgrees(strict, s, t, a, n);
  }

  /** RECOVER counts as done only where it was executed to its end. */
  lemma RestoreCases(s: Sys, o: Outcome)
    requires WF(s) && s.phase.Restoring?
    ensures var a := s.phase.a;
      var t := RestoreCall(s, o);
      t.phase.Idle? || (t.phase == Renumbering(a) &&
          t.nodes == s.nodes[a := Participants.Recover(s.nodes[a], s.phase.snapshot, s.delKeys)])
  {
    hide Participants.Recover, Snapshot.Recover, WF;
  }

  lemma {:induction false} RestoreAgrees(strict: bool, s: Sys, o: Outcome)
    requires Agree(strict, s) && s.phase.Restoring?
    ensures Stores(strict, RestoreCall(s, o))
  {
    RecoveredMatches(strict, s);
    var a := s.phase.a;
    var n := Participants.Recover(s.nodes[a], s.phase.snapshot, s.delKeys);
    RestoreShape(s, o);
    assert DiskRecords(s) == map[] && NodesInv(s) && a in s.nodes;
    RestoreCases(s, o);
    hide Inv, WF, NodesInv, NodesAgree, RestoreCall, Snapshot.Recover, Snapshot.Encode;
    RestoredAgrees(strict, s, RestoreCall(s, o), a, n.store);
  }

  lemma {:induction false} RenumberedAgrees(strict: bool, s: Sys)
    requires Agree(strict, s) && s.phase.Renumbering?
    ensures var a := s.phase.a;
            var n := SetNextId(s.nodes[a], s.next);
            var t := s.(nodes := s.nodes[a := n]);
            Stores(strict, t) && LogInv(t) && NodesInv(t) && Quiet(t) && WF(t)
            && Stores(strict, t.(phase := Idle))
  {
    var a := s.phase.a;
    var n := SetNextId(s.nodes[a], s.next);
    var t := s.(nodes := s.nodes[a := n]);
    NodeFacts(strict, s, a);
    assert StageOf(DiskRecords(s), DiskNext(s)) == Closed;
    assert NodeInv(n, DiskNext(s), s.first, s.cmds, s.commits);
    TouchAgrees(strict, s, t, a, n);
    TouchAgrees(strict, s, t.(phase := Idle), a, n);
    TouchKeeps(s, t, a, n);
  }

  lemma {:induction false} RenumberAgrees(strict: bool, s: Sys, o: Outcome)
    requires Agree(strict, s) && s.phase.Renumbering?
    ensures Stores(strict, RenumberCall(s, o))
  {
    hide NodesInv, NodesAgree;
    var a := s.phase.a;
    RenumberedAgrees(strict, s);
    if o.Done? {
      AdmitAgrees(strict, s.(nodes := s.nodes[a := SetNextId(s.nodes[a], s.next)]), a);
    } else if o.Dropped? || o.Refused? {
      PlainAgrees(strict, s, s.(phase := Idle));
    }
  }

  /** Steps between phases that neither send a decision nor renumber, with the same stores. */
  lemma PlainAgrees(strict: bool, s: Sys, t: Sys)
    requires Stores(strict, s) && !s.phase.Sending?
    requires t == s.(members := t.members, phase := t.phase, out := t.out)
    requires !t.phase.Sending? && !t.phase.Renumbering?
    ensures Stores(strict, t)
  {
    MemoryAgrees(strict, s, t);
  }

  lemma ReadAgrees(strict: bool, s: Sys, o: Outcome)
    requires WF(s) && Stores(strict, s) && Enabled(s, Call(o))
    requires s.phase.Getting? || s.phase.Fetching? || s.phase.Starting?
    ensures Stores(strict, DoCall(s, o))
  {
    match s.phase
    case Getting(_) => PlainAgrees(strict, s, GetCall(s, o));
    case Fetching(_) => PlainAgrees(strict, s, FetchCall(s, o));
    case Starting(_) => PlainAgrees(strict, s, StartCall(s, o));
  }

  /** No participant holds a key that is not committed: nothing would have to be deleted at a recovery. */
  ghost predicate Clean(s: Sys) {
    forall a :: a in s.nodes ==> s.nodes[a].store.Keys <= Committed(s).Keys
  }

  /** Losing del_keys_ keeps the strict form iff the stores are clean. What later runs then show is in AfterCrash. */
  lemma CrashAgrees(s: Sys)
    requires Stores(true, s)
    ensures Stores(true, DoCrash(s)) <==> Clean(s)
  {
    var t := DoCrash(s);
    SameCommitted(s, t);
    var next, stage, c, prev := DiskNext(s), StageOf(DiskRecords(s), DiskNext(s)), Committed(s), Before(s);
    assert Doomed(t) == {};
    forall a | a in s.nodes
      ensures NodeAgrees(true, s.nodes[a], next, stage, c, prev, {}) <==> s.nodes[a].store.Keys <= c.Keys
    {
      assert NodeAgrees(true, s.nodes[a], next, stage, c, prev, Doomed(s));
    }
  }

  /** Heartbeats, the start of a GET, crashes and starts. */
  lemma IdleAgrees(strict: bool, s: Sys, l: Label)
    requires WF(s) && Stores(strict, s) && Enabled(s, l) && (strict && l.Crash? ==> Clean(s))
    requires l.Get? || l.Beat? || l.BeatFail? || l.Crash? || l.Boot?
    ensures Stores(strict, Step(s, l))
  {
    match l
    case Get(key) => PlainAgrees(strict, s, BeginGet(s, key));
    case Beat(a) => if a !in s.members { PlainAgrees(strict, s, s.(phase := Asking(a))); }
    case BeatFail(a) => PlainAgrees(strict, s, s.(members := Remove(s.members, a)));
    case Crash => if strict { CrashAgrees(s); } else { MemoryAgrees(strict, s, DoCrash(s)); }
    case Boot => MemoryAgrees(strict, s, DoBoot(s));
  }

  // ----- all steps

  lemma {:induction false} CallAgrees(strict: bool, s: Sys, o: Outcome)
    requires Agree(strict, s) && Enabled(s, Call(o))
    ensures Stores(strict, DoCall(s, o))
  {
    match s.phase
    case Preparing(_, _, _, _) => PrepareAgrees(strict, s, o);
    case Sending(_, commit, _, _, _) => if commit { CommitCallAgrees(strict, s,
        o); } else { AbortCallAgrees(strict, s, o); }
    case Asking(_) => AskAgrees(strict, s, o);
    case Restoring(_, _) => RestoreAgrees(strict, s, o);
    case Renumbering(_) => RenumberAgrees(strict, s, o);
    case _ => ReadAgrees(strict, s, o);
  }

  lemma {:induction false} LocalAgrees(strict: bool, s: Sys)
    requires Agree(strict, s) && Enabled(s, Local)
    ensures Stores(strict, DoLocal(s))
  {
    hide Decided, Finished, NextUnfinished, LogInv, NodesInv;
    match s.phase
    case Preparing(_, _, _, _) => DecidedAgrees(strict, s);
    case Sending(_, _, _, _, _) => FinishedAgrees(strict, s);
    case Unfinished(_) => UnfinishedAgrees(strict, s);
    case _ => MemoryAgrees(strict, s, DoLocal(s));
  }

  /** Every step keeps the stores agreed; a crash keeps the strict form if the stores are clean. */
  lemma {:induction false} StepAgrees(strict: bool, s: Sys, l: Label)
    requires Agree(strict, s) && WithinLimit(l)
    requires strict && l.Crash? ==> Clean(s)
    ensures Agree(strict, Step(s, l))
  {
    StepKeeps(s, l);
    if Enabled(s, l) {
      match l
      case Update(cmd) => UpdateAgrees(strict, s, cmd);
      case Call(o) => CallAgrees(strict, s, o);
      case Local => LocalAgrees(strict, s);
      case _ => IdleAgrees(strict, s, l);
    }
  }

  /** A run in which every client command fits the snapshot format. */
  ghost predicate SmallRun(ls: seq<Label>) {
    forall i :: 0 <= i < |ls| ==> WithinLimit(ls[i])
  }

  /** A run whose crashes, if any, all find clean stores. A run of one lifetime has none. */
  ghost predicate CleanRun(s: Sys, ls: seq<Label>) {
    forall i :: 0 <= i < |ls| && ls[i].Crash? ==> Clean(Exec(s, ls[..i]))
  }

  lemma {:induction false} LastStep(strict: bool, s: Sys, ls: seq<Label>)
    requires ls != [] && SmallRun(ls) && (strict ==> CleanRun(s, ls))
    ensures var front, l := ls[..|ls| - 1], ls[|ls| - 1];
      && SmallRun(front) && (strict ==> CleanRun(s, front))
      && WithinLimit(l) && (strict && l.Crash? ==> Clean(Exec(s, front)))
      && Exec(s, ls) == Step(Exec(s, front), l)
  {
    var n := |ls| - 1;
    hide Step, Clean;
    assert forall i :: 0 <= i < n ==> ls[..n][..i] == ls[..i];
  }

  lemma {:induction false} RunAgrees(strict: bool, s: Sys, ls: seq<Label>)
    requires Agree(strict, s) && SmallRun(ls)
    requires strict ==> CleanRun(s, ls)
    ensures Agree(strict, Exec(s, ls))
    decreases |ls|
  {
    assert Exec(s, []) == s;
    hide Agree, Step, Exec, SmallRun, CleanRun, Clean;
    if ls == [] {
    } else {
      var front, l := ls[..|ls| - 1], ls[|ls| - 1];
      LastStep(strict, s, ls);
      RunAgrees(strict, s, front);
      StepAgrees(strict, Exec(s, front), l);
    }
  }
}
