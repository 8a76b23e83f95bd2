/**
 * What a restart of the coordinator can lose. del_keys_ is kept in memory only, so a DEL that a
 * participant missed before the crash is not repeated when that participant is recovered after it:
 * the two members then disagree, and nothing notices.
 */
module RestartDivergence {
  import opened KeyValue
  import opened Ordering
  import opened RecordLog
  import opened Participants
  import opened Protocol
  import opened Decisions
  import opened Agreement
  import opened TwoPhaseCommit
  import Snapshot

  // ----- putting runs together

  /** A run without a crash, whose client commands fit the snapshot format. */
  ghost predicate OneLife(ls: seq<Label>) {
    SmallRun(ls) && Crash !in ls
  }

  lemma Then(s: Sys, a: seq<Label>, t: Sys, b: seq<Label>, u: Sys)
    requires Exec(s, a) == t && Exec(t, b) == u
    ensures Exec(s, a + b) == u
    ensures OneLife(a) && OneLife(b) ==> OneLife(a + b)
  {
    ExecConcat(s, a, b);
  }

  lemma One(s: Sys, l: Label)
    ensures Exec(s, [l]) == Step(s, l)
    ensures l != Crash && WithinLimit(l) ==> OneLife([l])
  {
    assert Exec(s, []) == s;
    hide Step, Exec;
    assert [] + [l] == [l];
    ExecOne(s, [], l);
  }

  lemma Three(s: Sys, l1: Label, s1: Sys, l2: Label, s2: Sys, l3: Label, s3: Sys)
    requires Step(s, l1) == s1 && Step(s1, l2) == s2 && Step(s2, l3) == s3
    ensures Exec(s, [l1, l2, l3]) == s3
  {
    hide Step, Exec;
    One(s, l1);
    assert Exec(s, [l1, l2]) == s2 by { ExecOne(s, [l1], l2); assert [l1] + [l2] == [l1, l2]; }
    ExecOne(s, [l1, l2], l3);
    assert [l1, l2] + [l3] == [l1, l2, l3];
  }

  lemma Five(s: Sys, l1: Label, s1: Sys, l2: Label, s2: Sys, l3: Label, s3: Sys, l4: Label, s4: Sys, l5: Label, s5: Sys)
    requires Step(s, l1) == s1 && Step(s1, l2) == s2 && Step(s2, l3) == s3 && Step(s3, l4) == s4 && Step(s4, l5) == s5
    ensures Exec(s, [l1, l2, l3, l4, l5]) == s5
  {
    hide Step, Exec;
    Three(s, l1, s1, l2, s2, l3, s3);
    assert Exec(s, [l1, l2, l3, l4]) == s4 by { ExecOne(s, [l1, l2, l3], l4); assert [l1, l2, l3] + [l4] == [l1,
        l2, l3, l4]; }
    ExecOne(s, [l1, l2, l3, l4], l5);
    assert [l1, l2, l3, l4] + [l5] == [l1, l2, l3, l4, l5];
  }

  // ----- a start at which only one participant can be reached

  /** The calls of init_participants when d alone is up. */
  function OnlyUp(conf: seq<Addr>, d: Addr): seq<Label> {
    if conf == [] then [] else
      OnlyUp(conf[..|conf| - 1], d) + [Call(if conf[|conf| - 1] == d then Done else Dropped)]
  }

  lemma {:induction false} OnlyUpIsOneLife(conf: seq<Addr>, d: Addr)
    ensures OneLife(OnlyUp(conf, d))
  {
    if conf == [] {
    } else {
      OnlyUpIsOneLife(conf[..|conf| - 1], d);
    }
  }

  lemma OneMember(d: Addr, x: Addr)
    ensures Insert([], d) == Insert([d], d) == [d] && Remove([], x) == []
    ensures x != d ==> Remove([d], x) == [d]
  {
    assert Remove([d][1..], x) == [];
  }

  lemma StartStep(s: Sys, d: Addr, i: nat)
    requires WF(s) && s.phase == Starting(i) && i < |s.conf| && d in s.nodes && s.nodes[d].next == s.next
    requires s.members == if d in s.conf[..i] then [d] else []
    ensures Step(s, Call(if s.conf[i] == d then Done else Dropped)) ==
            s.(members := if d in s.conf[..i + 1] then [d] else [], phase := Starting(i + 1))
  {
    assert s.conf[..i + 1] == s.conf[..i] + [s.conf[i]];
    OneMember(d, s.conf[i]);
    hide Insert, Remove;
  }

  lemma {:induction false} StartLoop(s: Sys, d: Addr, i: nat)
    requires WF(s) && s.phase == Starting(0) && s.members == [] && i <= |s.conf|
    requires d in s.nodes && s.nodes[d].next == s.next
    ensures Exec(s, OnlyUp(s.conf[..i], d)) == s.(members := if d in s.conf[..i] then [d] else [], phase := Starting(i))
    decreases i
  {
    assert Exec(s, []) == s;
    hide Step, Exec, WF;
    if i == 0 {
    } else {
      StartLoop(s, d, i - 1);
      assert s.conf[..i][..i - 1] == s.conf[..i - 1];
      var t := Exec(s, OnlyUp(s.conf[..i - 1], d));
      StartStep(t, d, i - 1);
      ExecOne(s, OnlyUp(s.conf[..i - 1], d), Call(if s.conf[i - 1] == d then Done else Dropped));
    }
  }

  /** A crashed coordinator, and a participant that has everything its log decided. */
  ghost predicate Startable(s: Sys, d: Addr) {
    && WF(s) && s.phase.Down? && s.members == []
    && 0 < DiskNext(s) && d in s.nodes && s.nodes[d].next == DiskNext(s)
  }

  function Starts(conf: seq<Addr>, d: Addr): seq<Label> {
    [Boot] + OnlyUp(conf, d) + [Local]
  }

  lemma Booted(s: Sys)
    requires WF(s) && s.phase.Down? && s.members == [] && LastNext(s.disk) != 0
    ensures Step(s, Boot) == s.(next := LastNext(s.disk), records := Replay(s.disk), phase := Starting(0))
  {
  }

  lemma Started(s: Sys)
    requires WF(s) && s.phase == Starting(|s.conf|)
    ensures Step(s, Local) == s.(phase := Unfinished(SortedRecords(s.records)))
  {
  }

  /** After such a start d is the only member, and the records of the log are about to be settled. */
  lemma {:induction false} StartsAlone(s: Sys, d: Addr)
    requires Startable(s, d)
    ensures Exec(s, Starts(s.conf, d)) ==
            s.(next := DiskNext(s), records := DiskRecords(s), members := [d],
               phase := Unfinished(SortedRecords(DiskRecords(s))))
    ensures OneLife(Starts(s.conf, d))
  {
    var up := s.(next := DiskNext(s), records := DiskRecords(s), phase := Starting(0));
    var all := up.(members := [d], phase := Starting(|s.conf|));
    assert WF(all) && d in s.conf;
    hide Step, Exec, OneLife;
    Booted(s);
    One(s, Boot);
    assert s.conf[..|s.conf|] == s.conf;
    StartLoop(up, d, |s.conf|);
    OnlyUpIsOneLife(s.conf, d);
    Then(s, [Boot], up, OnlyUp(s.conf, d), all);
    Started(all);
    One(all, Local);
    Then(s, [Boot] + OnlyUp(s.conf, d), all, [Local], Step(all, Local));
  }

  // ----- settling what the log left unfinished

  /** A return to Idle from handle_unfinished_records. */
  lemma NothingUnfinished(s: Sys)
    requires WF(s) && s.phase == Unfinished([])
    ensures Step(s, Local) == s.(phase := Idle)
  {
  }

  /** The only member has settled the decision r on record: it is sent once more, and changes nothing. */
  ghost predicate Resends(s: Sys, d: Addr, r: Record) {
    && WF(s) && s.phase == Unfinished([r]) && s.members == [d]
    && s.records == map[r.id := r] && (r.status == COMMIT || r.status == ABORT)
    && s.next == r.id + 1 && s.nodes[d].next == r.id + 1
    && (if r.status == COMMIT then r.id in s.commits else r.id in s.aborts)
  }

  lemma ResendDecides(s: Sys, d: Addr, r: Record)
    requires Resends(s, d, r)
    ensures var q := Record(r.status, r.id, s.next);
            Step(s, Local) == s.(disk := s.disk + [q], records := map[r.id := q],
                                 phase := Sending(r.id, r.status == COMMIT, 0, "", Rest([])))
  {
    assert s.records[r.id := Record(r.status, r.id, s.next)] == map[r.id := Record(r.status, r.id, s.next)];
    assert s.commits + {r.id} == s.commits || r.status != COMMIT;
    assert s.aborts + {r.id} == s.aborts || r.status != ABORT;
    assert [r][1..] == [];
  }

  lemma ResendCalls(s: Sys, d: Addr, id: nat, commit: bool)
    requires WF(s) && s.members == [d] && s.phase == Sending(id, commit, 0, "", Rest([])) && s.nodes[d].next == id + 1
    ensures Step(s, Call(Done)) == s.(sent := s.sent + {(id, commit)}, phase := Sending(id, commit, 1, "", Rest([])))
  {
    assert s.nodes[d := s.nodes[d]] == s.nodes;
  }

  lemma ResendFinishes(s: Sys, d: Addr, id: nat, commit: bool)
    requires WF(s) && s.members == [d] && s.phase == Sending(id, commit, 1, "", Rest([])) && s.records.Keys == {id}
    ensures Step(s, Local) ==
            s.(disk := [Record(if commit then COMMIT_DONE else ABORT_DONE, id, s.next)], records := map[],
               phase := Unfinished([]))
  {
    assert s.records - {id} == map[];
  }

  lemma OneDone(r: Record)
    requires r.Done()
    ensures Replay([r]) == map[] && LastNext([r]) == r.next
  {
    assert [r][..0] == [];
    var none: map<nat, Record> := map[];
    assert none - {r.id} == none;
  }

  const RESEND: seq<Label> := [Local, Call(Done), Local]

  lemma {:induction false} Resent(s: Sys, d: Addr, r: Record)
    requires Resends(s, d, r)
    ensures var t := Exec(s, RESEND);
      && t == s.(disk := t.disk, records := map[], sent := t.sent, phase := Unfinished([]))
      && Replay(t.disk) == map[] && LastNext(t.disk) == s.next
    ensures OneLife(RESEND)
  {
    var id, commit := r.id, r.status == COMMIT;
    ResendDecides(s, d, r);
    var s1 := Step(s, Local);
    assert WF(s1) && s1.nodes[d].next == id + 1;
    hide Step, Exec, WF, Resends, Replay;
    ResendCalls(s1, d, id, commit);
    var s2 := Step(s1, Call(Done));
    ResendFinishes(s2, d, id, commit);
    OneDone(Record(if commit then COMMIT_DONE else ABORT_DONE, id, s.next));
    Three(s, Local, s1, Call(Done), s2, Local, Step(s2, Local));
  }

  /** With d the only member and past the unfinished record, if any: a way back to Idle with no record left. */
  lemma {:induction false} Settles(s: Sys, d: Addr) returns (ls: seq<Label>)
    requires Inv(s) && s.phase == Unfinished(SortedRecords(DiskRecords(s))) && s.members == [d]
    requires s.nodes[d].next == DiskNext(s)
    requires forall i :: i in DiskRecords(s) ==> DiskRecords(s)[i].status != UNRESOLVED
    ensures OneLife(ls)
    ensures var t := Exec(s, ls);
      && t == s.(disk := t.disk, records := map[], sent := t.sent, phase := Idle)
      && DiskRecords(t) == map[] && DiskNext(t) == DiskNext(s)
  {
    SortedUnfinished(s);
    var todo := SortedRecords(DiskRecords(s));
    ls := if todo == [] then [] else RESEND;
    if todo != [] {
      assert todo[0].id in DiskRecords(s);
      Resent(s, d, todo[0]);
    }
    var t := Exec(s, ls);
    hide Exec;
    NothingUnfinished(t);
    One(t, Local);
    Then(s, ls, t, [Local], Step(t, Local));
    ls := ls + [Local];
  }

  // ----- recovering e from d without knowing of a DEL

  /** An idle coordinator with the one member d and nothing unfinished; e is configured, and lags behind. */
  ghost predicate Solo(s: Sys, d: Addr, e: Addr) {
    && WF(s) && s.phase.Idle? && d != e && e in s.conf && s.members == [d]
    && s.next == DiskNext(s) && s.records == DiskRecords(s) == map[]
    && s.nodes[d].next == s.next && s.nodes[e].next < s.next
  }

  function Recovery(e: Addr): seq<Label> {
    [Beat(e), Call(Done), Call(Done), Call(Done), Call(Done)]
  }

  lemma Beaten(s: Sys, d: Addr, e: Addr)
    requires Solo(s, d, e)
    ensures Step(s, Beat(e)) == s.(phase := Asking(e))
    ensures Step(s.(phase := Asking(e)), Call(Done)) == s.(phase := Fetching(e))
  {
    hide Admit;
  }

  lemma Fetched(s: Sys, d: Addr, e: Addr)
    requires Solo(s, d, e)
    ensures Step(s.(phase := Fetching(e)), Call(Done)) ==
            s.(phase := Restoring(e, Snapshot.Encode(s.nodes[d].store)))
  {
    hide Snapshot.Encode;
  }

  lemma Restored(s: Sys, d: Addr, e: Addr, st: Store)
    requires Solo(s, d, e) && s.delKeys == {}
    requires Snapshot.Recover(Snapshot.Encode(s.nodes[d].store), {}, s.nodes[e].store) == Snapshot.Recovered(st)
    ensures Step(s.(phase := Restoring(e, Snapshot.Encode(s.nodes[d].store))), Call(Done)) ==
            s.(nodes := s.nodes[e := s.nodes[e].(store := st)], phase := Renumbering(e))
  {
    hide Snapshot.Encode, Snapshot.Recover;
  }

  lemma Renumbered(s: Sys, e: Addr)
    requires WF(s) && s.phase == Renumbering(e) && s.records == map[]
    ensures var t := Step(s, Call(Done));
      && t == s.(members := t.members, delKeys := t.delKeys, phase := Unfinished([]),
                 nodes := s.nodes[e := s.nodes[e].(next := s.next)])
      && t.members == Insert(s.members, e) && (s.delKeys == {} ==> t.delKeys == {})
  {
    hide Insert;
  }

  /** The recovered participant keeps all its own keys: nothing is known of a missed DEL. */
  lemma {:induction false} SoloRecovery(s: Sys, d: Addr, e: Addr)
    requires Solo(s, d, e) && s.delKeys == {} && Snapshot.SmallStore(s.nodes[d].store)
    ensures var t := Exec(s, Recovery(e));
      && WF(t) && d in t.members && e in t.members
      && t == s.(members := t.members, delKeys := t.delKeys, nodes := t.nodes, phase := Unfinished([]))
      && t.members == Insert([d], e) && t.delKeys == {}
      && t.nodes == s.nodes[e := s.nodes[e].(store := s.nodes[e].store + s.nodes[d].store, next := s.next)]
  {
    Snapshot.RecoverRoundTrip(s.nodes[d].store, {}, s.nodes[e].store);
    assert s.nodes[e].store - {} == s.nodes[e].store;
    hide Step, Exec, Snapshot.Encode, Snapshot.Recover, Insert;
    var st := s.nodes[e].store + s.nodes[d].store;
    var s3 := s.(phase := Restoring(e, Snapshot.Encode(s.nodes[d].store)));
    var s4 := s.(nodes := s.nodes[e := s.nodes[e].(store := st)], phase := Renumbering(e));
    Beaten(s, d, e);
    Fetched(s, d, e);
    Restored(s, d, e, st);
    Renumbered(s4, e);
    Five(s, Beat(e), s.(phase := Asking(e)), Call(Done), s.(phase := Fetching(e)), Call(Done), s3,
         Call(Done), s4, Call(Done), Step(s4, Call(Done)));
  }

  /** Two members that are both current, and a key that only the second holds. */
  ghost predicate Diverged(t: Sys, d: Addr, e: Addr, k: string) {
    && t.phase.Idle? && d in t.members && e in t.members && d in t.nodes && e in t.nodes
    && t.nodes[d].next == t.nodes[e].next == t.next
    && k !in t.nodes[d].store && k in t.nodes[e].store
  }

  lemma {:induction false} SoloDiverges(s: Sys, d: Addr, e: Addr, k: string)
    requires Solo(s, d, e) && s.delKeys == {} && Snapshot.SmallStore(s.nodes[d].store)
    requires k in s.nodes[e].store && k !in s.nodes[d].store
    ensures var t := Exec(s, Recovery(e) + [Local]);
      Diverged(t, d, e, k) && t == s.(members := t.members, delKeys := t.delKeys, nodes := t.nodes)
    ensures OneLife(Recovery(e) + [Local])
  {
    SoloRecovery(s, d, e);
    var t := Exec(s, Recovery(e));
    hide Exec;
    NothingUnfinished(t);
    ExecOne(s, Recovery(e), Local);
  }

  /**
   * A restart at which d has everything decided and e holds a key that d does not: once the log is
   * settled and e is recovered from d, both are current members and e still holds the key.
   */
  lemma {:induction false} UncleanDiverges(s: Sys, d: Addr, e: Addr, k: string) returns (ls: seq<Label>)
    requires Inv(s) && Startable(s, d) && s.delKeys == {} && Snapshot.SmallStore(s.nodes[d].store)
    requires forall i :: i in DiskRecords(s) ==> DiskRecords(s)[i].status != UNRESOLVED
    requires e in s.nodes && s.nodes[e].next < DiskNext(s) && k in s.nodes[e].store && k !in s.nodes[d].store
    ensures OneLife(ls) && Diverged(Exec(s, ls), d, e, k)
  {
    hide Exec, OneLife, Solo;
    StartsAlone(s, d);
    var s1 := Exec(s, Starts(s.conf, d));
    RunKeeps(s, Starts(s.conf, d));
    assert DiskNext(s1) == DiskNext(s) && DiskRecords(s1) == DiskRecords(s);
    var mid := Settles(s1, d);
    var s2 := Exec(s1, mid);
    SettledIsSolo(s, s1, s2, d, e);
    SoloDiverges(s2, d, e, k);
    Then(s, Starts(s.conf, d), s1, mid, s2);
    Then(s, Starts(s.conf, d) + mid, s2, Recovery(e) + [Local], Exec(s2, Recovery(e) + [Local]));
    ls := Starts(s.conf, d) + mid + (Recovery(e) + [Local]);
  }

  lemma SettledIsSolo(s: Sys, s1: Sys, s2: Sys, d: Addr, e: Addr)
    requires Startable(s, d) && d != e && e in s.nodes && s.nodes[e].next < DiskNext(s)
    requires s1 == s.(next := DiskNext(s), records := DiskRecords(s), members := [d],
                      phase := Unfinished(SortedRecords(DiskRecords(s))))
    requires s2 == s1.(disk := s2.disk, records := map[], sent := s2.sent, phase := Idle)
    requires DiskRecords(s2) == map[] && DiskNext(s2) == DiskNext(s)
    ensures Solo(s2, d, e)
  {
  }

  // ----- a DEL that only a sees: how such a state comes about

  function Deletion(keys: seq<string>): seq<Label> {
    [Update(Del(keys)), Call(Done), Local, Call(Done), Local]
  }

  /** The state after the steps of a DEL served by a alone, as far as it matters. */
  ghost predicate Deleted(s: Sys, t: Sys, a: Addr, b: Addr, keys: seq<string>) {
    && WF(s) && a in s.nodes
    && Solo(t, a, b) && t.conf == s.conf && t.next == s.next + 1
    && t.nodes == s.nodes[a := t.nodes[a]] && t.nodes[a].store == s.nodes[a].store - KeySet(keys)
  }

  lemma UpdateBegins(s: Sys, cmd: Command)
    requires WF(s) && s.phase.Idle? && s.members != [] && s.records == map[]
    ensures var id := s.next;
            var t := Step(s, Update(cmd));
            var r := Record(UNRESOLVED, id, id + 1);
            t == s.(next := id + 1, cmds := s.cmds[id := cmd], disk := s.disk + [r], records := map[id := r],
                    phase := Preparing(id, cmd, 0, true))
  {
  }

  /** Every pending command of a participant is for a later id. */
  ghost predicate NoneUpTo(n: Node, id: nat) {
    forall i :: i in n.pending ==> id < i
  }

  lemma UpdatePrepares(s: Sys, id: nat, cmd: Command, i: nat)
    requires WF(s) && s.phase == Preparing(id, cmd, i, true) && i < |s.members|
    requires s.members[i] in s.nodes && id !in s.nodes[s.members[i]].pending
    ensures var a := s.members[i];
            var n := s.nodes[a].(pending := s.nodes[a].pending[id := cmd]);
            Step(s, Call(Done)) == s.(nodes := s.nodes[a := n], phase := Preparing(id, cmd, i + 1, true))
  {
  }

  lemma UpdateDecides(s: Sys, id: nat, cmd: Command)
    requires WF(s) && s.members != [] && s.phase == Preparing(id, cmd, |s.members|, true) && s.records.Keys == {id}
    ensures var r := Record(COMMIT, id, s.next);
            Step(s, Local) == s.(disk := s.disk + [r], records := map[id := r], commits := s.commits + {id},
                                 phase := Sending(id, true, 0, "", Client(cmd)))
  {
    assert s.records[id := Record(COMMIT, id, s.next)] == map[id := Record(COMMIT, id, s.next)];
  }

  lemma {:induction false} UpdateCommits(s: Sys, a: Addr, id: nat, cmd: Command)
    requires WF(s) && s.members == [a] && s.phase == Sending(id, true, 0, "", Client(cmd))
    requires s.nodes[a].next == id && Heads(s.nodes[a], id, cmd)
    ensures var n := s.nodes[a];
            Step(s, Call(Done)) ==
            s.(nodes := s.nodes[a := Node(id + 1, n.pending - {id}, Apply(cmd, n.store), n.applied + [(id, cmd)])],
               sent := s.sent + {(id, true)}, phase := Sending(id, true, 1, Reply(cmd, n.store), Client(cmd)))
  {
    HeadIsApplied(s.nodes[a], id, cmd);
    hide Commit, CommitAnswer, Reply, Apply, Heads;
  }

  /** The command is pending under the id, and no pending id is lower. */
  ghost predicate Heads(n: Node, id: nat, cmd: Command) {
    id in n.pending && n.pending[id] == cmd && forall i :: i in n.pending ==> id <= i
  }

  lemma HeadIsApplied(n: Node, id: nat, cmd: Command)
    requires n.next == id && Heads(n, id, cmd)
    ensures Commit(n, id) == Node(id + 1, n.pending - {id}, Apply(cmd, n.store), n.applied + [(id, cmd)])
    ensures CommitAnswer(n, id) == Answer(Reply(cmd, n.store))
  {
    assert Least(n.pending.Keys) == id;
  }

  lemma UpdateFinishes(s: Sys, a: Addr, id: nat, cmd: Command, ret: string)
    requires WF(s) && s.members == [a] && s.phase == Sending(id, true, 1, ret, Client(cmd)) && s.records.Keys == {id}
    ensures var r := Record(COMMIT_DONE, id, s.next);
            Step(s, Local) == s.(disk := [r], records := map[], out := s.out + [ret],
                                 delKeys := s.delKeys + Remembered(s, true, cmd), phase := Idle)
  {
    assert s.records - {id} == map[];
  }

  /** Up to the decision: the command is prepared on a, and its COMMIT record is written. */
  lemma UpdateDecided(s: Sys, a: Addr, b: Addr, cmd: Command)
    requires Solo(s, a, b) && NoneUpTo(s.nodes[a], s.next)
    ensures var id := s.next;
      var t := Step(Step(Step(s, Update(cmd)), Call(Done)), Local);
      var r := Record(COMMIT, id, id + 1);
      t == s.(next := id + 1, cmds := s.cmds[id := cmd], records := map[id := r], commits := s.commits + {id},
              disk := s.disk + [Record(UNRESOLVED, id, id + 1)] + [r],
              nodes := s.nodes[a := s.nodes[a].(pending := s.nodes[a].pending[id := cmd])],
              phase := Sending(id, true, 0, "", Client(cmd)))
  {
    hide Step, Appended, Absorb;
    var id := s.next;
    UpdateBegins(s, cmd);
    var s1 := Step(s, Update(cmd));
    UpdatePrepares(s1, id, cmd, 0);
    UpdateDecides(Step(s1, Call(Done)), id, cmd);
  }

  lemma {:induction false} SoloDel(s: Sys, a: Addr, b: Addr, keys: seq<string>)
    requires Solo(s, a, b) && NoneUpTo(s.nodes[a], s.next)
    ensures Deleted(s, Exec(s, Deletion(keys)), a, b, keys)
  {
    hide Step, Exec, Reply, Appended, Absorb, Remembered;
    var id, cmd := s.next, Del(keys);
    UpdateDecided(s, a, b, cmd);
    var s1 := Step(s, Update(cmd));
    var s2 := Step(s1, Call(Done));
    var s3 := Step(s2, Local);
    var s4 := Step(s3, Call(Done));
    UpdateCommits(s3, a, id, cmd);
    var s5 := Step(s4, Local);
    UpdateFinishes(s4, a, id, cmd, s4.phase.ret);
    Five(s, Update(cmd), s1, Call(Done), s2, Local, s3, Call(Done), s4, Local, s5);
    OneDone(Record(COMMIT_DONE, id, s4.next));
  }

  // ----- the whole run, for any configuration

  /** A start that reaches a alone, a DEL, a crash, such a start again, and the recovery of b. */
  function Run(conf: seq<Addr>, a: Addr, b: Addr, keys: seq<string>): seq<Label> {
    Starts(conf, a) + [Local] + Deletion(keys) + [Crash] + (Starts(conf, a) + [Local]) + (Recovery(b) + [Local])
  }

  /** A log without an unfinished record, a current participant a, and a lagging one b. */
  ghost predicate Lagging(s: Sys, a: Addr, b: Addr) {
    && Startable(s, a) && DiskRecords(s) == map[]
    && b in s.nodes && s.nodes[b].next < DiskNext(s)
  }

  lemma {:induction false} SoloStart(s: Sys, a: Addr, b: Addr)
    requires Lagging(s, a, b)
    ensures var t := s.(next := DiskNext(s), records := map[], members := [a], phase := Idle);
            Solo(t, a, b) && Exec(s, Starts(s.conf, a) + [Local]) == t
  {
    hide Exec;
    StartsAlone(s, a);
    var t := Exec(s, Starts(s.conf, a));
    NothingUnfinished(t);
    ExecOne(s, Starts(s.conf, a), Local);
  }

  lemma CrashedIsLagging(s: Sys, a: Addr, b: Addr)
    requires Solo(s, a, b) && 0 < s.next
    ensures Step(s, Crash) == DoCrash(s) && Lagging(DoCrash(s), a, b)
  {
  }

  lemma DeletedKeeps(s: Sys, t: Sys, a: Addr, b: Addr, k: string)
    requires Deleted(s, t, a, b, [k]) && b in s.nodes
    ensures Solo(t, a, b) && t.conf == s.conf && 0 < t.next && a != b && a in t.nodes && b in t.nodes
    ensures t.nodes[b] == s.nodes[b] && k !in t.nodes[a].store
    ensures Snapshot.SmallStore(s.nodes[a].store) ==> Snapshot.SmallStore(t.nodes[a].store)
  {
    assert k in [k];
  }

  /**
   * From every start with a current participant a and a lagging one b that holds a key: after
   * this run the coordinator is idle, both are current members, and b still holds the key that the
   * committed DEL removed from a.
   */
  lemma {:induction false} RestartCanDiverge(s: Sys, a: Addr, b: Addr, k: string)
    requires Lagging(s, a, b) && NoneUpTo(s.nodes[a], DiskNext(s))
    requires Snapshot.SmallStore(s.nodes[a].store) && k in s.nodes[b].store
    ensures Diverged(Exec(s, Run(s.conf, a, b, [k])), a, b, k)
  {
    hide Step, Exec, Lagging, Solo, Deleted, Diverged, Snapshot.SmallStore;
    var s1 := Exec(s, Starts(s.conf, a) + [Local]);
    SoloStart(s, a, b);
    LaggingNodes(s, a, b);
    var s2 := Exec(s1, Deletion([k]));
    SoloDel(s1, a, b, [k]);
    DeletedKeeps(s1, s2, a, b, k);
    CrashedIsLagging(s2, a, b);
    var s3 := Step(s2, Crash);
    var s4 := Exec(s3, Starts(s.conf, a) + [Local]);
    SoloStart(s3, a, b);
    SoloDiverges(s4, a, b, k);
    ExecConcat(s, Starts(s.conf, a) + [Local], Deletion([k]));
    ExecOne(s, Starts(s.conf, a) + [Local] + Deletion([k]), Crash);
    ExecConcat(s, Starts(s.conf, a) + [Local] + Deletion([k]) + [Crash], Starts(s.conf, a) + [Local]);
    ExecConcat(s, Starts(s.conf, a) + [Local] + Deletion([k]) + [Crash] + (Starts(s.conf, a) + [Local]),
        Recovery(b) + [Local]);
  }

  lemma LaggingNodes(s: Sys, a: Addr, b: Addr)
    requires Lagging(s, a, b)
    ensures a in s.nodes && b in s.nodes
  {
  }

  /** There is such a start, and it is a first start. */
  lemma StartExists()
    ensures exists s: Sys :: FirstStart(s) && Lagging(s, 0, 1) && NoneUpTo(s.nodes[0], DiskNext(s)) &&
                             "k" in s.nodes[0].store && "k" in s.nodes[1].store
  {
    var st: Store := map["k" := "v"];
    var r := Record(COMMIT_DONE, 0, 1);
    OneDone(r);
    var s := Sys([0, 1], 0, [], {}, map[], Down, [r], map[0 := Node(1, map[], st, []), 1 := Node(0, map[], st, [])],
                 1, st, map[], {}, {}, {}, []);
    assert FirstStart(s);
    assert Lagging(s, 0, 1);
  }
}
