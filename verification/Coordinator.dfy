/**
 * The coordinator as the object the program runs (coordinator.cpp). Each method that holds the
 * mutex is proved to be one walk of the transition system from Idle back to Idle: the labels it
 * returns say which RPC outcomes and records it went through.
 */
module Coordinators {
  import opened KeyValue
  import opened RecordLog
  import opened Participants
  import opened Protocol
  import opened Decisions
  import opened Agreement
  import opened Rounds
  import History
  import Sections
  import TwoPhaseCommit
  import Snapshot

  /** From s the labels lead to t, within one critical section. */
  ghost predicate Leads(s: Sys, ls: seq<Label>, t: Sys) {
    Sections.Section(ls) && Exec(s, ls) == t
  }

  lemma LeadsOne(s: Sys, l: Label)
    ensures Leads(s, [l], Step(s, l))
  {
    assert [] + [l] == [l];
    ExecOne(s, [], l);
  }

  lemma LeadsOn(s: Sys, ls: seq<Label>, t: Sys, l: Label, u: Sys)
    requires Leads(s, ls, t) && (l.Call? || l.Local?) && Step(t, l) == u
    ensures Leads(s, ls + [l], u)
  {
    ExecOne(s, ls, l);
  }

  lemma LeadsCall(s: Sys, ls: seq<Label>, t: Sys, o: Outcome, u: Sys)
    requires Leads(s, ls, t) && WF(t) && Enabled(t, Call(o)) && DoCall(t, o) == u
    ensures Leads(s, ls + [Call(o)], u) && WF(u)
  {
    LeadsOn(s, ls, t, Call(o), u);
  }

  lemma LeadsLocal(s: Sys, ls: seq<Label>, t: Sys, u: Sys)
    requires Leads(s, ls, t) && WF(t) && Enabled(t, Local) && DoLocal(t) == u
    ensures Leads(s, ls + [Local], u) && WF(u)
  {
    LeadsOn(s, ls, t, Local, u);
  }

  lemma LeadsGet(s: Sys, key: string)
    requires WF(s) && s.phase.Idle?
    ensures Leads(s, [Get(key)], BeginGet(s, key)) && WF(BeginGet(s, key))
    ensures BeginGet(s, key) == if s.members == [] then s.(out := s.out + [ERROR_REPLY]) else s.(phase := Getting(key))
  {
    LeadsOne(s, Get(key));
  }

  lemma LeadsUpdate(s: Sys, cmd: Command)
    requires WF(s) && s.phase.Idle?
    ensures Leads(s, [Update(cmd)], BeginUpdate(s, cmd)) && WF(BeginUpdate(s, cmd))
  {
    LeadsOne(s, Update(cmd));
  }

  lemma LeadsBeat(s: Sys, a: Addr)
    requires WF(s) && s.phase.Idle? && a in s.conf
    ensures var t := if a in s.members then s else s.(phase := Asking(a));
            Leads(s, [Beat(a)], t) && WF(t)
  {
    LeadsOne(s, Beat(a));
  }

  lemma LeadsBeatFail(s: Sys, a: Addr)
    requires WF(s) && s.phase.Idle? && a in s.conf
    ensures var t := s.(members := Remove(s.members, a));
            Leads(s, [BeatFail(a)], t) && WF(t)
  {
    hide Leads;
    LeadsOne(s, BeatFail(a));
  }

  lemma LeadsBoot(s: Sys)
    requires WF(s) && s.phase.Down? && LastNext(s.disk) != 0
    ensures Leads(s, [Boot], DoBoot(s)) && WF(DoBoot(s))
  {
    LeadsOne(s, Boot);
  }

  /** What a walk keeps: the invariants of the whole system. */
  lemma LeadsKeeps(s: Sys, ls: seq<Label>, t: Sys)
    requires Leads(s, ls, t) && Inv(s)
    ensures Inv(t)
  {
    RunKeeps(s, ls);
  }

  lemma MemberExists(s: Sys, i: nat)
    requires WF(s) && i < |s.members|
    ensures s.members[i] in s.nodes
  {
    assert s.members[i] in s.members;
  }

  /** ... and the agreement of the stores, if the client's command fits the snapshot format. */
  lemma LeadsAgrees(s: Sys, ls: seq<Label>, t: Sys)
    requires Leads(s, ls, t) && Agree(true, s) && WithinLimit(ls[0]) && ls[0] != Crash
    ensures Agree(true, t)
  {
    RunAgrees(true, s, ls);
  }

  /** Between s and t one GET was served: with the committed value, or the error if no member is left. */
  ghost predicate GetServed(s: Sys, key: string, t: Sys) {
    && Committed(t) == Committed(s)
    && t.out == s.out + [if t.members == [] then ERROR_REPLY else GetReply(Committed(s), key)]
  }

  /** A walk for a GET answers it as the committed store owes. */
  lemma {:induction false} LeadsServes(s: Sys, ls: seq<Label>, t: Sys)
    requires Leads(s, ls, t) && s.phase.Idle? && t.phase.Idle? && ls[0].Get?
    ensures Agree(true, s) ==> Agree(true, t) && GetServed(s, ls[0].key, t)
  {
    if Agree(true, s) {
      LeadsAgrees(s, ls, t);
      History.SectionReplies(s, ls);
    }
  }

  /** A walk for an update that ends before any decision leaves the committed store. */
  lemma {:induction false} LeadsErrs(s0: Sys, ls0: seq<Label>, s: Sys, ls: seq<Label>, t: Sys)
    requires Leads(s0, ls0, s) && Leads(s0, ls, t) && s0.phase.Idle? && ls0[0].Update? && ls[0] == ls0[0]
    requires s.phase.Preparing?
    requires t == s.(out := t.out, phase := Idle)
    ensures Agree(true, s0) && WithinLimit(ls[0]) ==> UpdateTookEffect(s0, ls[0].cmd, false, t)
  {
    if Agree(true, s0) && WithinLimit(ls[0]) {
      LeadsAgrees(s0, ls, t);
      History.StillServing(s0, ls0);
      assert 0 < DiskNext(t);
      hide Agree, Leads, Committed;
      SameCommitted(t, s);
    }
  }

  lemma LocalFinishes(t: Sys)
    requires WF(t) && t.phase.Sending? && !Calls(t)
    ensures Step(t, Local) == Finished(t)
    ensures t.phase.after.Client? ==>
              History.Pending(t.phase) != [] && History.Settled(t) == if t.phase.commit then Before(t) else Committed(t)
  {
    hide Finished, Ascending;
  }

  lemma {:induction false} ClientFinished(t: Sys, cmd: Command)
    requires Inv(t) && t.phase.Sending? && t.phase.after == Client(cmd) && !Calls(t) && Agree(true, t)
    ensures var u := Finished(t);
      && u.members == t.members
      && Committed(u) == (if t.phase.commit then Apply(cmd, Before(t)) else Committed(t))
      && (t.phase.commit ==> u.out == t.out + [if t.members == [] then "" else Reply(cmd, Before(t))])
  {
    History.FinishedCommitted(t);
    TwoPhaseCommit.FinishedShape(t);
    if t.phase.commit {
      TwoPhaseCommit.CollectedReply(t);
    }
    hide Agree, Inv, Committed, Before, Finished, Reply, Apply;
  }

  /** ... and one that has been decided: applied and answered if committed, without effect if aborted. */
  lemma {:induction false} LeadsDecided(s0: Sys, ls: seq<Label>, t: Sys, cmd: Command, u: Sys)
    requires Leads(s0, ls, t) && s0.phase.Idle? && ls[0] == Update(cmd)
    requires t.phase.Sending? && t.phase.after == Client(cmd) && !Calls(t) && WF(t) && u == Finished(t)
    ensures Agree(true, s0) && Snapshot.SmallCommand(cmd) ==> UpdateTookEffect(s0, cmd, t.phase.commit, u)
  {
    if Agree(true, s0) && Snapshot.SmallCommand(cmd) {
      hide WF, Agree, Inv, Calls, Leads, Committed, Before, Finished, Step, Reply, Apply;
      History.StillServing(s0, ls);
      LocalFinishes(t);
      LeadsOn(s0, ls, t, Local, u);
      LeadsAgrees(s0, ls + [Local], u);
      ClientFinished(t, cmd);
    }
  }

  /** Without a member an update changes nothing but the replies. */
  lemma {:induction false} NobodyServes(s: Sys, ls: seq<Label>, t: Sys)
    requires Leads(s, ls, t) && t == s.(out := t.out) && ls[0].Update?
    ensures Agree(true, s) && WithinLimit(ls[0]) ==> UpdateTookEffect(s, ls[0].cmd, false, t)
  {
    if Agree(true, s) && WithinLimit(ls[0]) {
      LeadsAgrees(s, ls, t);
      SameCommitted(s, t);
    }
  }

  /** Who is left behind the prepare loop, and how the loop ended. */
  lemma Answered(was: seq<Addr>, now: seq<Addr>, os: seq<Outcome>, ok: bool)
    requires |os| <= |was| && (ok ==> |os| == |was|) && (!ok ==> os != [])
    requires forall j :: 0 <= j < |os| ==> (os[j].Refused? <==> !ok && j == |os| - 1)
    requires forall j :: 0 <= j < |was| ==> (was[j] in now <==> j >= |os| || os[j].Done? || os[j].Refused?)
    requires forall a :: a in now ==> a in was
    ensures ok <==> !SomeRefused(os)
    ensures !ok ==> now != []
    ensures ok ==> (now != [] <==> SomePrepared(os))
  {
    if !ok {
      assert os[|os| - 1].Refused?;
      assert was[|os| - 1] in now;
    } else {
      if now != [] {
        assert now[0] in was;
        var j :| 0 <= j < |was| && was[j] == now[0];
        assert os[j].Done?;
      }
      if j :| 0 <= j < |os| && os[j].Done? {
        assert was[j] in now;
      }
    }
  }

  /** The record of an id overwrites the one before it, and its DONE record removes both. */
  lemma RecordOnce(records: map<nat, Record>, id: nat, r: Record, q: Record)
    ensures records[id := r][id := q] == records[id := q]
    ensures records[id := r][id := q] - {id} == records - {id}
  {
  }

  /** What a COMMIT call does, in the state before it. */
  lemma CommitDoes(s: Sys, o: Outcome)
    requires WF(s) && s.phase.Sending? && s.phase.commit && Calls(s) && !o.Refused?
    ensures var Sending(id, _, i, ret, after) := s.phase;
      var a := s.members[i];
      && a in s.nodes && Enabled(s, Call(o))
      && var answer := CommitAnswer(s.nodes[a], id);
         var stays := o.Done? && answer.Answer?;
         DoCall(s, o) ==
         s.(sent := s.sent + {(id, true)},
            nodes := if o.Done? || o.Lost? then s.nodes[a := Commit(s.nodes[a], id)] else s.nodes,
            members := if stays then s.members else Erase(s.members, i),
            phase := if stays then Sending(id, true, i + 1, if ret == "" then answer.text else ret, after) else s.phase)
  {
    assert s.members[s.phase.i] in s.members;
    hide Commit, CommitAnswer, Erase, Ascending;
  }

  lemma AbortDoes(s: Sys, o: Outcome)
    requires WF(s) && s.phase.Sending? && !s.phase.commit && Calls(s) && !o.Refused?
    ensures var Sending(id, _, i, ret, after) := s.phase;
      var a := s.members[i];
      && a in s.nodes && Enabled(s, Call(o))
      && DoCall(s, o) ==
         s.(sent := s.sent + {(id, false)},
            nodes := if o.Done? || o.Lost? then s.nodes[a := Abort(s.nodes[a], id)] else s.nodes,
            members := if o.Done? then s.members else Erase(s.members, i),
            phase := if o.Done? then Sending(id, false, i + 1, ret, after) else s.phase)
  {
    assert s.members[s.phase.i] in s.members;
    hide Abort, Erase, Ascending;
  }

  /** What a PREPARE call does, in the state before it. */
  lemma PrepareDoes(s: Sys, o: Outcome)
    requires WF(s) && s.phase.Preparing? && Calls(s)
    ensures var Preparing(id, cmd, i, _) := s.phase;
      var a := s.members[i];
      && a in s.members && a in s.nodes && Enabled(s, Call(o))
      && DoCall(s, o) ==
         s.(nodes := if o.Done? || o.Lost? then s.nodes[a := Prepare(s.nodes[a], id, cmd)] else s.nodes,
            members := if o.Lost? || o.Dropped? then Erase(s.members, i) else s.members,
            phase := Preparing(id, cmd, if o.Done? then i + 1 else i, !o.Refused?))
  {
    assert s.members[s.phase.i] in s.members;
    hide Prepare, Erase, Ascending;
  }

  /**
   * Between s and t one update was served. It was aborted iff a PREPARE was refused, and committed iff
   * none was and some was answered; os are the outcomes, member by member. A refusal ends the round.
   */
  ghost predicate UpdateServed(s: Sys, cmd: Command, os: seq<Outcome>, t: Sys) {
    var id := s.next;
    var refused, committed := SomeRefused(os), !SomeRefused(os) && SomePrepared(os);
    && |os| <= |s.members| && (!refused ==> |os| == |s.members|)
    && (forall j :: 0 <= j < |os| - 1 ==> !os[j].Refused?)
    && (s.members == [] ==> t == s.(out := s.out + ["-ERROR\r\n"]))
    && (s.members != [] ==>
          && t.next == id + 1 && t.cmds == s.cmds[id := cmd]
          && t.records == if !refused && !committed then s.records[id := Record(UNRESOLVED, id, id + 1)]
                          else if t.members != [] then s.records - {id}
                          else s.records[id := Record(if committed then COMMIT else ABORT, id, id + 1)])
    && t.aborts == s.aborts + (if refused then {id} else {})
    && t.commits == s.commits + (if committed then {id} else {})
    && t.delKeys == s.delKeys + (if committed && cmd.Del? && |t.members| < |t.conf| then (set k | k in cmd.keys) else {})
    && (!committed ==> t.out == s.out + ["-ERROR\r\n"])
    && (forall a :: a in t.members ==> a in s.members)
    && (forall j :: 0 <= j < |os| && s.members[j] in t.members ==> os[j].Done? || os[j].Refused?)
  }

  /** Putting the prepare loop and the decision together; ms are the members between them. */
  lemma ServesUpdate(s: Sys, cmd: Command, os: seq<Outcome>, ok: bool, ms: seq<Addr>, t: Sys)
    requires s.members != [] && |os| <= |s.members| && (ok ==> |os| == |s.members|) && (!ok ==> os != [])
    requires forall j :: 0 <= j < |os| ==> (os[j].Refused? <==> !ok && j == |os| - 1)
    requires forall j :: 0 <= j < |s.members| ==> (s.members[j] in ms <==> j >= |os| || os[j].Done? || os[j].Refused?)
    requires forall a :: a in ms ==> a in s.members
    requires t.conf == s.conf && t.next == s.next + 1 && t.cmds == s.cmds[s.next := cmd]
    requires forall a :: a in t.members ==> a in ms
    requires t.commits == s.commits + (if ok && ms != [] then {s.next} else {})
    requires t.aborts == s.aborts + (if ok then {} else {s.next})
    requires t.delKeys == s.delKeys + (if ok && ms != [] && cmd.Del? && |t.members| < |t.conf|
                                       then (set k | k in cmd.keys) else {})
    requires var open := s.records[s.next := Record(UNRESOLVED, s.next, t.next)];
             var r := Record(if ok then COMMIT else ABORT, s.next, t.next);
             t.records == if ms == [] then open
                          else if t.members == [] then open[s.next := r] else open[s.next := r] - {s.next}
    requires !ok || ms == [] ==> t.out == s.out + ["-ERROR\r\n"]
    ensures UpdateServed(s, cmd, os, t)
    ensures ok && ms != [] <==> !SomeRefused(os) && SomePrepared(os)
  {
    Answered(s.members, ms, os, ok);
    RecordOnce(s.records, s.next, Record(UNRESOLVED, s.next, t.next), Record(if ok then COMMIT else ABORT, s.next, t.next));
    hide SomeRefused, SomePrepared;
  }

  /** ... and the stores stay agreed: a committed update took effect and has its reply, another did not. */
  ghost predicate UpdateTookEffect(s: Sys, cmd: Command, committed: bool, t: Sys) {
    && Agree(true, t)
    && if committed then
         && Committed(t) == Apply(cmd, Committed(s))
         && t.out == s.out + [if t.members == [] then "" else Reply(cmd, Committed(s))]
       else Committed(t) == Committed(s)
  }

  lemma ErrorText()
    ensures ERROR_REPLY == "-ERROR\r\n"
  {
    ReplyText(Del([]), map[]);
  }

  /** What one GET call does. */
  lemma GetShape(s: Sys, o: Outcome)
    requires WF(s) && s.phase.Getting? && !o.Refused?
    ensures s.members != [] && s.members[0] in s.nodes && Calls(s) && Enabled(s, Call(o))
    ensures DoCall(s, o) ==
            if o.Done? then
              s.(out := s.out + [GetReply(s.nodes[s.members[0]].store, s.phase.key)], phase := Idle)
            else if |s.members| == 1 then s.(members := [], out := s.out + [ERROR_REPLY], phase := Idle)
            else s.(members := Erase(s.members, 0))
    ensures |s.members| == 1 ==> Erase(s.members, 0) == []
  {
    MemberExists(s, 0);
    assert |s.members| == 1 ==> Erase(s.members, 0) == [];
    hide Erase, GetReply;
  }

  lemma WasAscending(s: Sys)
    requires WF(s)
    ensures Ascending(s.members)
  {
  }

  lemma NobodyServed(s: Sys, cmd: Command, t: Sys)
    requires s.members == [] && t == s.(out := s.out + ["-ERROR\r\n"])
    ensures UpdateServed(s, cmd, [], t)
  {
    NoneAnswered();
  }

  lemma NoneAnswered()
    ensures !SomeRefused([]) && !SomePrepared([])
  {
  }

  lemma OpenRecord(records: map<nat, Record>, r: Record)
    requires r.status == UNRESOLVED
    ensures Absorb(records, r) == records[r.id := r]
  {
  }

  /** A round that is broken off by a refusal: the member that refused stays. */
  lemma {:induction false} RoundRefused(was: seq<Addr>, now: seq<Addr>, i: nat, keep: seq<bool>, os: seq<Outcome>,
                                        f: Node -> Node, nodes: map<Addr, Node>, nodes1: map<Addr, Node>, o: Outcome,
                                        nodes2: map<Addr, Node>)
    requires Round(was, now, i, keep, os, f, nodes, nodes1) && i < |now| && now[i] in nodes1 && o.Refused?
    requires nodes2 == nodes1 && forall j :: 0 <= j < |os| ==> (keep[j] <==> os[j].Done?) && !os[j].Refused?
    ensures |os| < |was| && Touched(was, os + [o], f, nodes, nodes2)
    ensures forall j :: 0 <= j < |was| ==>
              (was[j] in now <==> j >= |os| + 1 || (os + [o])[j].Done? || (os + [o])[j].Refused?)
    ensures forall a :: a in now ==> a in was
  {
    RoundAt(was, now, i, keep, os, f, nodes, nodes1);
    RoundOn(was, now, i, keep, os, f, nodes, nodes1, o, nodes2);
    RoundLast(was, now, i, keep, os, f, nodes, nodes1);
    RoundLast(was, now, i + 1, keep + [true], os + [o], f, nodes, nodes2);
    hide Round, Touched;
  }

  lemma EraseFirst(ms: seq<Addr>)
    requires ms != []
    ensures Erase(ms, 0) == ms[1..]
  {
  }

  lemma CallsNone(ls: seq<Label>)
    ensures ls + CallsOf([]) == ls
  {
  }

  lemma CallsFirst(ls: seq<Label>, o: Outcome)
    ensures ls + CallsOf([o]) == ls + [Call(o)]
  {
  }

  lemma CallsJoin(ls: seq<Label>, os: seq<Outcome>, os': seq<Outcome>)
    ensures ls + CallsOf(os) + CallsOf(os') == ls + CallsOf(os + os')
  {
  }

  lemma DecidedDecides(s: Sys)
    requires s.phase.Preparing? && !Calls(s)
    ensures Enabled(s, Local)
    ensures DoLocal(s) == if s.members == [] then s.(out := s.out + [ERROR_REPLY], phase := Idle)
                          else Decide(s, s.phase.id, s.phase.ok, Client(s.phase.cmd))
  {
    hide Decide;
  }

  lemma UnfinishedDecides(s: Sys)
    requires s.phase.Unfinished?
    ensures Enabled(s, Local)
    ensures var todo := s.phase.todo;
      && (todo == [] ==> DoLocal(s) == s.(phase := Idle))
      && (todo != [] && (todo[0].status == UNRESOLVED || todo[0].status == ABORT) ==>
            DoLocal(s) == Decide(s, todo[0].id, false, Rest(todo[1..])))
      && (todo != [] && todo[0].status == COMMIT ==> DoLocal(s) == Decide(s, todo[0].id, true, Rest(todo[1..])))
  {
    hide Decide;
  }

  /** The step behind a decision loop. */
  lemma FinishedDoes(t: Sys)
    requires t.phase.Sending? && !Calls(t)
    ensures Enabled(t, Local) && DoLocal(t) == Finished(t)
  {
    hide Finished;
  }

  lemma AdmitDoes(s: Sys, a: Addr)
    ensures var ms := Insert(s.members, a);
            Admit(s, a) == s.(members := ms, delKeys := if |ms| == |s.conf| then {} else s.delKeys,
                              phase := Unfinished(SortedRecords(s.records)))
    ensures WF(s) && a in s.conf ==> WF(Admit(s, a))
  {
    hide WF, Insert, SortedRecords;
  }

  lemma FinishedClient(t: Sys, cmd: Command)
    requires t.phase.Sending? && t.phase.after == Client(cmd)
    ensures Finished(t).phase == Idle && Finished(t).conf == t.conf
    ensures Finished(t).delKeys == t.delKeys + Remembered(t, t.phase.commit, cmd)
  {
  }

  lemma InvWF(s: Sys)
    requires Inv(s)
    ensures WF(s) && (s.phase.Down? ==> LastNext(s.disk) != 0)
  {
  }

  lemma FinishedRest(t: Sys, todo: seq<Record>)
    requires t.phase.Sending? && t.phase.after == Rest(todo)
    ensures Finished(t).phase == Unfinished(todo) && Finished(t).delKeys == t.delKeys
  {
  }

  /** assert(0) in handle_unfinished_records is out of reach. */
  lemma NoOtherStatus(s: Sys, ls: seq<Label>, t: Sys)
    requires Leads(s, ls, t) && Inv(s) && t.phase.Unfinished? && t.phase.todo != []
    ensures t.phase.todo[0].status in {UNRESOLVED, ABORT, COMMIT}
  {
    LeadsKeeps(s, ls, t);
    assert t.phase.todo[0].id in DiskRecords(t);
  }

  /** Whether the latest of the calls, one a configured address, that went to an address was answered. */
  ghost predicate AnsweredLast(conf: seq<Addr>, calls: seq<Label>, a: Addr)
    requires |calls| <= |conf|
    decreases |calls|
  {
    var n := |calls| - 1;
    calls != [] && if conf[n] == a then calls[n] == Call(Done) else AnsweredLast(conf, calls[..n], a)
  }

  lemma AnsweredOn(conf: seq<Addr>, ls: seq<Label>, n: nat, o: Outcome)
    requires n <= |ls| < n + |conf|
    ensures forall a :: AnsweredLast(conf, (ls + [Call(o)])[n..], a) <==>
              if a == conf[|ls| - n] then o.Done? else AnsweredLast(conf, ls[n..], a)
  {
    assert (ls + [Call(o)])[n..] == ls[n..] + [Call(o)];
    assert (ls[n..] + [Call(o)])[..|ls| - n] == ls[n..];
  }

  lemma Configured(s: Sys)
    requires WF(s)
    ensures forall a :: a in s.conf ==> a in s.nodes
    ensures forall a :: a in s.members ==> a in s.conf
  {
  }

  /** A call of init_participants, as the transition system has it. */
  lemma StartsWith(s: Sys, o: Outcome)
    requires WF(s) && s.phase.Starting? && Calls(s) && s.conf[s.phase.i] in s.nodes
    ensures var a := s.conf[s.phase.i];
            DoCall(s, o) == s.(members := if o.Done? &&
                UpToDate(s.nodes[a].next, s.next, s.records) then Insert(s.members, a)
                                          else Remove(s.members, a),
                               phase := Starting(s.phase.i + 1))
  {
    hide Insert, Remove;
  }

  lemma FetchDoes(s: Sys, o: Outcome)
    requires WF(s) && s.phase.Fetching? && s.members != []
    ensures s.members[0] in s.nodes
    ensures DoCall(s, o) == if o.Done? then s.(phase := Restoring(s.phase.a, Snapshot.Encode(s.nodes[s.members[0]].store)))
                            else s.(members := Erase(s.members, 0))
  {
    MemberExists(s, 0);
    hide Erase, Snapshot.Encode;
  }

  lemma FetchEnds(s: Sys)
    requires WF(s) && s.phase.Fetching? && s.members == []
    ensures Enabled(s, Local) && DoLocal(s) == s.(phase := Idle) && s.phase.a in s.conf
  {
  }

  /**
   * What RECOVER and SET_NEXT_ID, with the outcomes os, did to a participant: the second is called only behind
   * an answer to the first, and ok says that both were answered.
   */
  ghost predicate Restored(n: Node, snapshot: string, dels: set<string>, next: nat, os: seq<Outcome>, n': Node, ok: bool) {
    var got := Snapshot.Recover(snapshot, dels, n.store);
    && 1 <= |os| <= 2 && (|os| == 2 <==> os[0].Done? && !got.Undefined?)
    && (ok <==> |os| == 2 && os[1].Done?)
    && n'.store == (if os[0].Done? || os[0].Lost? then got.store else n.store)
    && n'.next == (if |os| == 2 && (os[1].Done? || os[1].Lost?) then next else n.next)
    && n'.pending == n.pending && n'.applied == n.applied
  }

  /** The first k members gave no snapshot; the one behind them did, unless there is none. */
  ghost predicate Fetched(a: Addr, was: seq<Addr>, k: nat, os: seq<Outcome>, nodes: map<Addr, Node>,
      nodes': map<Addr, Node>, dels: set<string>, next: nat, ok: bool) {
    && k <= |was| && k <= |os| && (forall j :: 0 <= j < k ==> !os[j].Done?)
    && if k == |was| then |os| == k && nodes' == nodes && !ok
       else
         && |os| > k && os[k].Done? && was[k] in nodes && a in nodes && a in nodes' && nodes' == nodes[a := nodes'[a]]
         && Restored(nodes[a], Snapshot.Encode(nodes[was[k]].store), dels, next, os[k + 1..], nodes'[a], ok)
  }

  datatype RecoverResult = Recovered | Failed | Thrown

  class Coordinator {
    const conf: seq<Addr>
    var nextId: nat
    var participants: seq<Addr>
    var delKeys: set<string>
    var records: map<nat, Record>
    var out: seq<string>
    var disk: seq<Record>         // the log file
    var nodes: map<Addr, Node>    // the participants, reached only by RPC
    ghost const first: nat
    ghost const base: Store
    ghost var cmds: map<nat, Command>
    ghost var commits: set<nat>
    ghost var aborts: set<nat>
    ghost var sent: set<(nat, bool)>

    /** The state of the system when the coordinator is in a given phase. */
    ghost function View(p: Phase): Sys
      reads this
    {
      Sys(conf, nextId, participants, delKeys, records, p, disk, nodes, first, base, cmds, commits, aborts, sent, out)
    }

    /** A process that has not started yet, on a log and beside participants it finds there. */
    constructor (conf: seq<Addr>, disk: seq<Record>, nodes: map<Addr, Node>, ghost first: nat, ghost base: Store)
      requires WF(Sys(conf, 0, [], {}, map[], Down, disk, nodes, first, base, map[], {}, {}, {}, []))
      ensures View(Down) == Sys(conf, 0, [], {}, map[], Down, disk, nodes, first, base, map[], {}, {}, {}, [])
    {
      this.conf, this.disk, this.nodes, this.first, this.base := conf, disk, nodes, first, base;
      nextId, participants, delKeys, records, out := 0, [], {}, map[], [];
      cmds, commits, aborts, sent := map[], {}, {}, {};
    }

    // ----- the log and the RPCs

    method Log(r: Record)
      modifies this`disk, this`records, this`commits, this`aborts
      ensures View(Idle) == Protocol.Log(old(View(Idle)), r)
    {
      disk := Appended(disk, records, r);
      records := Absorb(records, r);
      if r.status == COMMIT {
        commits := commits + {r.id};
      }
      if r.status == ABORT {
        aborts := aborts + {r.id};
      }
    }

    method CallPrepare(a: Addr, id: nat, cmd: Command) returns (o: Outcome)
      requires a in nodes
      modifies this`nodes
      ensures nodes == if o.Done? || o.Lost? then old(nodes)[a := Prepare(old(nodes)[a], id, cmd)] else old(nodes)
    {
      o := *;
      if o.Done? || o.Lost? {
        nodes := nodes[a := Prepare(nodes[a], id, cmd)];
      }
    }

    /** COMMIT on one participant: the outcome of the call, and what the handler answers if it runs. */
    method CallCommit(a: Addr, id: nat) returns (o: Outcome, answer: CommitResult)
      requires a in nodes
      modifies this`nodes, this`sent
      ensures !o.Refused? && answer == CommitAnswer(old(nodes)[a], id)
      ensures nodes == if o.Done? || o.Lost? then old(nodes)[a := Commit(old(nodes)[a], id)] else old(nodes)
      ensures sent == old(sent) + {(id, true)}
    {
      o := PickOutcome();
      answer := CommitAnswer(nodes[a], id);
      sent := sent + {(id, true)};
      if o.Done? || o.Lost? {
        nodes := nodes[a := Commit(nodes[a], id)];
      }
    }

    method CallAbort(a: Addr, id: nat) returns (o: Outcome)
      requires a in nodes
      modifies this`nodes, this`sent
      ensures !o.Refused?
      ensures nodes == if o.Done? || o.Lost? then old(nodes)[a := Abort(old(nodes)[a], id)] else old(nodes)
      ensures sent == old(sent) + {(id, false)}
    {
      o := PickOutcome();
      sent := sent + {(id, false)};
      if o.Done? || o.Lost? {
        nodes := nodes[a := Abort(nodes[a], id)];
      }
    }

    method PickOutcome() returns (o: Outcome)
      ensures !o.Refused?
    {
      o := *;
      if o.Refused? {
        o := Dropped;
      }
    }

    // ----- client requests

    /**
     * GET: asks member after member. Those that fail are erased; the first that answers gives the reply,
     * and if none does, the error.
     */
    method HandleDbGetRequest(key: string) returns (ghost ls: seq<Label>, ghost os: seq<Outcome>)
      requires WF(View(Idle))
      modifies this`participants, this`out
      ensures Leads(old(View(Idle)), ls, View(Idle)) && ls == [Get(key)] + CallsOf(os)
      ensures |os| <= |old(participants)| && forall j :: 0 <= j < |os| - 1 ==> !os[j].Done?
      ensures os != [] && os[|os| - 1].Done? ==>
                && participants == old(participants)[|os| - 1..] && participants[0] in nodes
                && out == old(out) + [GetReply(nodes[participants[0]].store, key)]
      ensures os == [] || !os[|os| - 1].Done? ==>
                |os| == |old(participants)| && participants == [] && out == old(out) + ["-ERROR\r\n"]
      ensures Agree(true, old(View(Idle))) ==> Agree(true, View(Idle)) && GetServed(old(View(Idle)), key, View(Idle))
    {
      hide Leads, Agree, GetServed, WF, DoCall, Enabled, Calls, BeginGet, Erase, CallsOf, GetReply;
      ghost var s0 := View(Idle);
      ls, os := [Get(key)], [];
      ErrorText();
      CallsNone(ls);
      LeadsGet(s0, key);
      if participants == [] {
        out := out + [ERROR_REPLY];
        LeadsServes(s0, ls, View(Idle));
        return;
      }
      while participants != []
        invariant participants != [] ==> WF(View(Getting(key))) && Leads(s0, ls, View(Getting(key)))
        invariant participants == [] ==> Leads(s0, ls, View(Idle).(out := out + [ERROR_REPLY]))
        invariant ls == [Get(key)] + CallsOf(os) && out == old(out)
        invariant |os| <= |old(participants)| && participants == old(participants)[|os|..]
        invariant forall j :: 0 <= j < |os| ==> !os[j].Done?
        decreases |participants|
      {
        ghost var s := View(Getting(key));
        var o := PickOutcome();
        GetShape(s, o);
        CallsOn([Get(key)], os, o);
        if o.Done? {
          out := out + [GetReply(nodes[participants[0]].store, key)];
          LeadsCall(s0, ls, s, o, View(Idle));
          ls, os := ls + [Call(o)], os + [o];
          LeadsServes(s0, ls, View(Idle));
          return;
        }
        EraseFirst(participants);
        participants := Erase(participants, 0);
        LeadsCall(s0, ls, s, o, DoCall(s, o));
        ls, os := ls + [Call(o)], os + [o];
      }
      out := out + [ERROR_REPLY];
      LeadsServes(s0, ls, View(Idle));
    }

    /**
     * The prepare loop: members that cannot be reached are erased, a refusal ends it. Whose PREPARE was
     * answered, and who was not asked, stays.
     */
    method PrepareAll(id: nat, cmd: Command, ghost s0: Sys, ghost ls0: seq<Label>)
      returns (ok: bool, ghost i_: nat, ghost ls: seq<Label>, ghost os: seq<Outcome>)
      requires WF(View(Preparing(id, cmd, 0, true))) && Leads(s0, ls0, View(Preparing(id, cmd, 0, true)))
      modifies this`participants, this`nodes
      ensures WF(View(Preparing(id, cmd, i_, ok))) && !Calls(View(Preparing(id, cmd, i_, ok)))
      ensures Leads(s0, ls, View(Preparing(id, cmd, i_, ok))) && ls == ls0 + CallsOf(os)
      ensures |os| <= |old(participants)| && (ok ==> |os| == |old(participants)|)
      ensures !ok ==> os != []
      ensures forall j :: 0 <= j < |os| ==> (os[j].Refused? <==> !ok && j == |os| - 1)
      ensures forall j :: 0 <= j < |old(participants)| ==>
                (old(participants)[j] in participants <==> j >= |os| || os[j].Done? || os[j].Refused?)
      ensures forall a :: a in participants ==> a in old(participants)
      ensures Touched(old(participants), os, n => Prepare(n, id, cmd), old(nodes), nodes)
    {
      hide Leads, WF, DoCall, Enabled, Round, Touched, CallsOf, Prepare, Erase, Ascending;
      ok, i_, ls, os := true, 0, ls0, [];
      var i := 0;
      ghost var was, before, keep := participants, nodes, [];
      ghost var f := (n: Node) => Prepare(n, id, cmd);
      WasAscending(View(Preparing(id, cmd, 0, true)));
      RoundFirst(was, f, nodes);
      CallsNone(ls0);
      while i < |participants|
        invariant i <= |participants| && WF(View(Preparing(id, cmd, i, true)))
        invariant Leads(s0, ls, View(Preparing(id, cmd, i, true))) && ls == ls0 + CallsOf(os)
        invariant |keep| == |os| && forall j :: 0 <= j < |os| ==> (keep[j] <==> os[j].Done?) && !os[j].Refused?
        invariant Round(was, participants, i, keep, os, f, before, nodes)
        decreases |participants| - i
      {
        ghost var s := View(Preparing(id, cmd, i, true));
        ghost var nodes1 := nodes;
        MemberExists(s, i);
        var o := CallPrepare(participants[i], id, cmd);
        PrepareDoes(s, o);
        RoundOn(was, participants, i, keep, os, f, before, nodes1, o, nodes);
        CallsOn(ls0, os, o);
        if o.Refused? {
          LeadsCall(s0, ls, s, o, View(Preparing(id, cmd, i, false)));
          RoundRefused(was, participants, i, keep, os, f, before, nodes1, o, nodes);
          return false, i, ls + [Call(o)], os + [o];
        }
        ghost var now := participants;
        if !o.Done? {
          participants := Erase(participants, i);
        } else {
          i := i + 1;
        }
        LeadsCall(s0, ls, s, o, View(Preparing(id, cmd, i, true)));
        ls, os, keep := ls + [Call(o)], os + [o], keep + [o.Done?];
      }
      RoundLast(was, participants, i, keep, os, f, before, nodes);
      i_ := i;
    }

    /**
     * SET and DEL: a new id, its UNRESOLVED record, the prepare loop, and the decision. The update is
     * aborted iff a PREPARE was refused; it is committed iff none was and some was answered.
     */
    method HandleDbUpdateRequest(cmd: Command) returns (ghost ls: seq<Label>, ghost os: seq<Outcome>)
      requires WF(View(Idle))
      modifies this
      ensures Leads(old(View(Idle)), ls, View(Idle)) && [Update(cmd)] + CallsOf(os) <= ls
      ensures UpdateServed(old(View(Idle)), cmd, os, View(Idle))
      ensures Agree(true, old(View(Idle))) && Snapshot.SmallCommand(cmd) ==>
                UpdateTookEffect(old(View(Idle)), cmd, !SomeRefused(os) && SomePrepared(os), View(Idle))
    {
      hide Leads, WF, Agree, Appended, Absorb, Decide, Calls, CallsOf, UpdateServed, UpdateTookEffect, Touched;
      hide SomeRefused, SomePrepared;
      ghost var s0 := View(Idle);
      ls, os := [Update(cmd)], [];
      CallsNone(ls);
      LeadsUpdate(s0, cmd);
      NoneAnswered();
      if participants == [] {
        out := out + [ERROR_REPLY];
        ErrorText();
        NobodyServed(s0, cmd, View(Idle));
        NobodyServes(s0, ls, View(Idle));
        return;
      }
      var id := nextId;
      nextId := nextId + 1;
      cmds := cmds[id := cmd];
      Log(Record(UNRESOLVED, id, nextId));
      OpenRecord(s0.records, Record(UNRESOLVED, id, nextId));
      assert View(Preparing(id, cmd, 0, true)) == BeginUpdate(s0, cmd);

      var ok;
      ghost var i;
      ok, i, ls, os := PrepareAll(id, cmd, s0, ls);
      ghost var s := View(Preparing(id, cmd, i, ok));
      Answered(s0.members, participants, os, ok);
      ghost var ms := participants;
      ls := Resolve(id, cmd, ok, s0, ls, s);
      ServesUpdate(s0, cmd, os, ok, ms, View(Idle));
    }

    /** Behind the prepare loop: COMMIT or ABORT if a member is left, and what a DEL leaves to remember. */
    method Resolve(id: nat, cmd: Command, ok: bool, ghost s0: Sys, ghost ls0: seq<Label>, ghost s: Sys)
      returns (ghost ls: seq<Label>)
      requires WF(s) && Leads(s0, ls0, s) && s == View(s.phase)
      requires s.phase.Preparing? && !Calls(s) && s.phase.id == id && s.phase.cmd == cmd && s.phase.ok == ok
      requires s0.phase.Idle? && ls0 != [] && ls0[0] == Update(cmd) && (!ok ==> participants != [])
      modifies this
      ensures Leads(s0, ls, View(Idle)) && ls0 <= ls
      ensures nextId == old(nextId) && cmds == old(cmds) && forall a :: a in participants ==> a in old(participants)
      ensures commits == old(commits) + (if ok && old(participants) != [] then {id} else {})
      ensures aborts == old(aborts) + (if ok then {} else {id})
      ensures delKeys == old(delKeys) + (if ok && old(participants) != [] && cmd.Del? && |participants| < |conf|
                                         then (set k | k in cmd.keys) else {})
      ensures records == if old(participants) == [] then old(records)
                         else if participants == [] then
                           old(records)[id := Record(if ok then COMMIT else ABORT, id, nextId)]
                         else old(records)[id := Record(if ok then COMMIT else ABORT, id, nextId)] - {id}
      ensures !ok || old(participants) == [] ==> out == old(out) + ["-ERROR\r\n"]
      ensures Agree(true, s0) && Snapshot.SmallCommand(cmd) ==>
                UpdateTookEffect(s0, cmd, ok && old(participants) != [], View(Idle))
    {
      hide Leads, WF, Agree, Finished, UpdateTookEffect, CallsOf, Touched, Answers, FirstText;
      hide Decide, DoLocal, Enabled, Calls;
      ErrorText();
      DecidedDecides(s);
      if participants == [] {
        out := out + [ERROR_REPLY];
        LeadsLocal(s0, ls0, s, View(Idle));
        ls := ls0 + [Local];
        LeadsErrs(s0, ls0, s, ls, View(Idle));
        return;
      }
      ghost var t;
      ghost var os;
      if ok {
        var ret;
        ret, ls, t, os := CommitDbRequest(id, true, Client(cmd), s0, ls0, s);
        if cmd.Del? && |participants| < |conf| {
          delKeys := delKeys + KeySet(cmd.keys);
        }
      } else {
        ls, t, os := AbortDbRequest(id, true, Client(cmd), s0, ls0, s);
      }
      FinishedClient(t, cmd);
      FinishedDoes(t);
      assert Finished(t) == View(Idle);
      LeadsDecided(s0, ls, t, cmd, View(Idle));
      LeadsLocal(s0, ls, t, View(Idle));
      ls := ls + [Local];
    }

    // ----- decisions

    /** The COMMIT loop: who does not answer is erased; ret is the first answer that is not empty. */
    method SendCommits(id: nat, ghost after: After, ghost s0: Sys, ghost ls0: seq<Label>)
      returns (ret: string, ghost i_: nat, ghost ls: seq<Label>, ghost os: seq<Outcome>)
      requires WF(View(Sending(id, true, 0, "", after))) && Leads(s0, ls0, View(Sending(id, true, 0, "", after)))
      modifies this`participants, this`nodes, this`sent
      ensures var t := View(Sending(id, true, i_, ret, after));
              WF(t) && Leads(s0, ls, t) && i_ == |participants|
      ensures ls == ls0 + CallsOf(os) && |os| == |old(participants)|
      ensures forall j :: 0 <= j < |old(participants)| ==>
                (old(participants)[j] in participants <==> Answers(old(participants), os, old(nodes), id, j))
      ensures forall a :: a in participants ==> a in old(participants)
      ensures Touched(old(participants), os, n => Commit(n, id), old(nodes), nodes)
      ensures FirstText(old(participants), os, old(nodes), id, ret)
      ensures sent == old(sent) + (if old(participants) == [] then {} else {(id, true)})
    {
      hide Leads, WF, DoCall, Commit, CommitAnswer, Round, Touched, CallsOf, FirstText, Answers, Erase;
      ret, i_, ls, os := "", 0, ls0, [];
      var i := 0;
      ghost var was, before, keep := participants, nodes, [];
      ghost var f := (n: Node) => Commit(n, id);
      WasAscending(View(Sending(id, true, 0, "", after)));
      RoundFirst(was, f, nodes);
      FirstTextNone(was, nodes, id);
      CallsNone(ls0);
      while i < |participants|
        invariant i <= |participants| && WF(View(Sending(id, true, i, ret, after)))
        invariant Leads(s0, ls, View(Sending(id, true, i, ret, after))) && ls == ls0 + CallsOf(os)
        invariant |keep| == |os| && forall j: nat :: j < |os| ==> (keep[j] <==> Answers(was, os, before, id, j))
        invariant Round(was, participants, i, keep, os, f, before, nodes) && FirstText(was, os, before, id, ret)
        invariant sent == old(sent) + (if os == [] then {} else {(id, true)})
        decreases |participants| - i
      {
        ghost var u := View(Sending(id, true, i, ret, after));
        MemberExists(u, i);
        ghost var nodes1 := nodes;
        RoundAt(was, participants, i, keep, os, f, before, nodes);
        var o, answer := CallCommit(participants[i], id);
        CommitDoes(u, o);
        RoundOn(was, participants, i, keep, os, f, before, nodes1, o, nodes);
        AnswersOn(was, os, before, id, o);
        FirstTextOn(was, os, before, id, ret, o);
        CallsOn(ls0, os, o);
        if o.Done? && answer.Answer? {
          if ret == "" {
            ret := answer.text;
          }
          i := i + 1;
        } else {
          participants := Erase(participants, i);
        }
        LeadsCall(s0, ls, u, o, View(Sending(id, true, i, ret, after)));
        ls, os, keep := ls + [Call(o)], os + [o], keep + [o.Done? && answer.Answer?];
      }
      RoundLast(was, participants, i, keep, os, f, before, nodes);
      i_ := i;
    }

    /**
     * Writes COMMIT, sends it to every member, and writes COMMIT_DONE if a member is left. `s` is
     * the state before; `t` the one behind the loop, whose last step only del_keys_ is missing from.
     */
    method CommitDbRequest(id: nat, client: bool, ghost after: After, ghost s0: Sys, ghost ls0: seq<Label>, ghost s: Sys)
      returns (ret: string, ghost ls: seq<Label>, ghost t: Sys, ghost os: seq<Outcome>)
      requires client == after.Client?
      requires WF(s) && Leads(s0, ls0, s) && s == View(s.phase)
      requires Enabled(s, Local) && DoLocal(s) == Decide(s, id, true, after)
      modifies this`disk, this`records, this`commits, this`aborts, this`participants, this`nodes, this`sent, this`out
      ensures WF(t) && Leads(s0, ls, t) && ls == ls0 + [Local] + CallsOf(os)
      ensures t.phase.Sending? && !Calls(t) && t.phase.commit && t.phase.after == after && t.phase.ret == ret
      ensures t.members == participants && t.delKeys == delKeys && t.out == old(out)
      ensures Finished(t) == View(Finished(t).phase).(delKeys := Finished(t).delKeys)
      ensures out == old(out) + (if client then [ret] else [])
      ensures commits == old(commits) + {id} && aborts == old(aborts)
      ensures records == if participants == [] then old(records)[id := Record(COMMIT, id, nextId)]
                         else old(records)[id := Record(COMMIT, id, nextId)] - {id}
      ensures |os| == |old(participants)|
      ensures forall j :: 0 <= j < |old(participants)| ==>
                (old(participants)[j] in participants <==> Answers(old(participants), os, old(nodes), id, j))
      ensures forall a :: a in participants ==> a in old(participants)
      ensures Touched(old(participants), os, n => Commit(n, id), old(nodes), nodes)
      ensures FirstText(old(participants), os, old(nodes), id, ret)
      ensures sent == old(sent) + (if old(participants) == [] then {} else {(id, true)})
    {
      hide Leads, WF, Appended, Touched, Answers, FirstText, CallsOf;
      Log(Record(COMMIT, id, nextId));
      LeadsLocal(s0, ls0, s, View(Sending(id, true, 0, "", after)));
      ghost var i;
      ret, i, ls, os := SendCommits(id, after, s0, ls0 + [Local]);
      t := View(Sending(id, true, i, ret, after));
      if participants != [] {
        Log(Record(COMMIT_DONE, id, nextId));
      }
      if client {
        out := out + [ret];
      }
    }

    /** The ABORT loop. */
    method SendAborts(id: nat, ghost after: After, ghost s0: Sys, ghost ls0: seq<Label>)
      returns (ghost i_: nat, ghost ls: seq<Label>, ghost os: seq<Outcome>)
      requires WF(View(Sending(id, false, 0, "", after))) && Leads(s0, ls0, View(Sending(id, false, 0, "", after)))
      modifies this`participants, this`nodes, this`sent
      ensures var t := View(Sending(id, false, i_, "", after));
              WF(t) && Leads(s0, ls, t) && i_ == |participants|
      ensures ls == ls0 + CallsOf(os) && |os| == |old(participants)|
      ensures forall j :: 0 <= j < |old(participants)| ==> (old(participants)[j] in participants <==> os[j].Done?)
      ensures forall a :: a in participants ==> a in old(participants)
      ensures Touched(old(participants), os, n => Abort(n, id), old(nodes), nodes)
      ensures sent == old(sent) + (if old(participants) == [] then {} else {(id, false)})
    {
      hide Leads, WF, DoCall, Abort, Round, Touched, CallsOf, Erase;
      i_, ls, os := 0, ls0, [];
      var i := 0;
      ghost var was, before, keep := participants, nodes, [];
      ghost var f := (n: Node) => Abort(n, id);
      WasAscending(View(Sending(id, false, 0, "", after)));
      RoundFirst(was, f, nodes);
      CallsNone(ls0);
      while i < |participants|
        invariant i <= |participants| && WF(View(Sending(id, false, i, "", after)))
        invariant Leads(s0, ls, View(Sending(id, false, i, "", after))) && ls == ls0 + CallsOf(os)
        invariant |keep| == |os| && forall j :: 0 <= j < |os| ==> (keep[j] <==> os[j].Done?)
        invariant Round(was, participants, i, keep, os, f, before, nodes)
        invariant sent == old(sent) + (if os == [] then {} else {(id, false)})
        decreases |participants| - i
      {
        ghost var u := View(Sending(id, false, i, "", after));
        MemberExists(u, i);
        ghost var nodes1 := nodes;
        var o := CallAbort(participants[i], id);
        AbortDoes(u, o);
        RoundOn(was, participants, i, keep, os, f, before, nodes1, o, nodes);
        CallsOn(ls0, os, o);
        if o.Done? {
          i := i + 1;
        } else {
          participants := Erase(participants, i);
        }
        LeadsCall(s0, ls, u, o, View(Sending(id, false, i, "", after)));
        ls, os, keep := ls + [Call(o)], os + [o], keep + [o.Done?];
      }
      RoundLast(was, participants, i, keep, os, f, before, nodes);
      i_ := i;
    }

    method AbortDbRequest(id: nat, client: bool, ghost after: After, ghost s0: Sys, ghost ls0: seq<Label>, ghost s: Sys)
      returns (ghost ls: seq<Label>, ghost t: Sys, ghost os: seq<Outcome>)
      requires client == after.Client?
      requires WF(s) && Leads(s0, ls0, s) && s == View(s.phase)
      requires Enabled(s, Local) && DoLocal(s) == Decide(s, id, false, after)
      modifies this`disk, this`records, this`commits, this`aborts, this`participants, this`nodes, this`sent, this`out
      ensures WF(t) && Leads(s0, ls, t) && ls == ls0 + [Local] + CallsOf(os)
      ensures t.phase.Sending? && !Calls(t) && !t.phase.commit && t.phase.after == after
      ensures t.members == participants && t.delKeys == delKeys && t.out == old(out)
      ensures Finished(t) == View(Finished(t).phase)
      ensures out == old(out) + (if client then ["-ERROR\r\n"] else [])
      ensures commits == old(commits) && aborts == old(aborts) + {id}
      ensures records == if participants == [] then old(records)[id := Record(ABORT, id, nextId)]
                         else old(records)[id := Record(ABORT, id, nextId)] - {id}
      ensures |os| == |old(participants)|
      ensures forall j :: 0 <= j < |old(participants)| ==> (old(participants)[j] in participants <==> os[j].Done?)
      ensures forall a :: a in participants ==> a in old(participants)
      ensures Touched(old(participants), os, n => Abort(n, id), old(nodes), nodes)
      ensures sent == old(sent) + (if old(participants) == [] then {} else {(id, false)})
    {
      hide Leads, WF, Appended, Touched, CallsOf;
      ErrorText();
      Log(Record(ABORT, id, nextId));
      LeadsLocal(s0, ls0, s, View(Sending(id, false, 0, "", after)));
      ghost var i;
      i, ls, os := SendAborts(id, after, s0, ls0 + [Local]);
      t := View(Sending(id, false, i, "", after));
      if participants != [] {
        Log(Record(ABORT_DONE, id, nextId));
      }
      if client {
        out := out + [ERROR_REPLY];
      }
    }

    // ----- recovery

    /** Settles every record of a copy of the map, in id order. */
    method HandleUnfinishedRecords(ghost s0: Sys, ghost ls0: seq<Label>) returns (ghost ls: seq<Label>)
      requires Inv(s0) && WF(View(Unfinished(SortedRecords(records))))
      requires Leads(s0, ls0, View(Unfinished(SortedRecords(records))))
      modifies this`disk, this`records, this`commits, this`aborts, this`participants, this`nodes, this`sent, this`out
      ensures WF(View(Idle)) && Leads(s0, ls, View(Idle)) && ls0 <= ls
      ensures out == old(out) && forall a :: a in participants ==> a in old(participants)
    {
      hide Leads, Inv, WF, Decide, Finished, DoLocal, Enabled, Calls, Touched, Answers, FirstText, CallsOf;
      var todo := SortedRecords(records);
      ls := ls0;
      while todo != []
        invariant WF(View(Unfinished(todo))) && Leads(s0, ls, View(Unfinished(todo))) && ls0 <= ls
        invariant out == old(out) && forall a :: a in participants ==> a in old(participants)
        decreases |todo|
      {
        ghost var s := View(Unfinished(todo));
        ghost var t;
        var r := todo[0];
        UnfinishedDecides(s);
        if r.status == UNRESOLVED || r.status == ABORT {
          ghost var os;
          ls, t, os := AbortDbRequest(r.id, false, Rest(todo[1..]), s0, ls, s);
        } else if r.status == COMMIT {
          ghost var os;
          var ret;
          ret, ls, t, os := CommitDbRequest(r.id, false, Rest(todo[1..]), s0, ls, s);
        } else {
          NoOtherStatus(s0, ls, s);
          assert false;
        }
        todo := todo[1..];
        FinishedRest(t, todo);
        FinishedDoes(t);
        assert Finished(t) == View(Unfinished(todo));
        LeadsLocal(s0, ls, t, View(Unfinished(todo)));
        ls := ls + [Local];
      }
      UnfinishedDecides(View(Unfinished([])));
      LeadsLocal(s0, ls, View(Unfinished([])), View(Idle));
      ls := ls + [Local];
    }

    /**
     * recover_participant: NEXT_ID, and unless it is current a snapshot from the first member that gives one;
     * the k before it are erased. Thrown is the exception of NEXT_ID. os are the outcomes of the calls.
     */
    method RecoverParticipant(a: Addr, ghost s0: Sys, ghost ls0: seq<Label>)
      returns (r: RecoverResult, ghost ls: seq<Label>, ghost os: seq<Outcome>, ghost k: nat)
      requires WF(View(Asking(a))) && Leads(s0, ls0, View(Asking(a)))
      modifies this`participants, this`nodes
      ensures a in conf && a in old(nodes) && WF(View(Idle)) && ls0 + CallsOf(os) <= ls
      ensures Leads(s0, ls, if r.Recovered? then Admit(View(Idle), a) else View(Idle))
      ensures k <= |old(participants)| && participants == old(participants)[k..]
      ensures os != [] && (r.Thrown? <==> !os[0].Done?)
      ensures var q := old(nodes)[a].next;
              var current := q == nextId || (q + 1 == nextId && q in records && records[q].status == UNRESOLVED);
              && (r.Thrown? || current ==> |os| == 1 && k == 0 && nodes == old(nodes) && !r.Failed?)
              && (!r.Thrown? && !current ==>
                    Fetched(a, old(participants), k, os[1..], old(nodes), nodes, delKeys, nextId, r.Recovered?))
    {
      hide Leads, Snapshot.Encode, SortedRecords, Insert, Fetched, CallsOf;
      ghost var s := View(Asking(a));
      var o := PickOutcome();
      ls, os, k := ls0 + [Call(o)], [o], 0;
      CallsFirst(ls0, o);
      if !o.Done? {
        LeadsCall(s0, ls0, s, o, View(Idle));
        return Thrown, ls, os, k;
      }
      var q := nodes[a].next;
      if q == nextId || (q + 1 == nextId && q in records && records[q].status == UNRESOLVED) {
        LeadsCall(s0, ls0, s, o, Admit(View(Idle), a));
        return Recovered, ls, os, k;
      }
      LeadsCall(s0, ls0, s, o, View(Fetching(a)));
      ghost var more;
      r, ls, more, k := FetchFromMembers(a, s0, ls);
      CallsJoin(ls0, os, more);
      os := os + more;
    }

    /** Asks member after member for a snapshot; those that fail are erased. */
    method FetchFromMembers(a: Addr, ghost s0: Sys, ghost ls0: seq<Label>)
      returns (r: RecoverResult, ghost ls: seq<Label>, ghost os: seq<Outcome>, ghost k: nat)
      requires WF(View(Fetching(a))) && Leads(s0, ls0, View(Fetching(a)))
      modifies this`participants, this`nodes
      ensures a in conf && WF(View(Idle)) && ls0 + CallsOf(os) <= ls && !r.Thrown?
      ensures Leads(s0, ls, if r.Recovered? then Admit(View(Idle), a) else View(Idle))
      ensures k <= |old(participants)| && participants == old(participants)[k..]
      ensures Fetched(a, old(participants), k, os, old(nodes), nodes, delKeys, nextId, r.Recovered?)
    {
      hide Leads, Snapshot.Encode, SortedRecords, Insert, WF, DoCall, CallsOf, Erase, Restored;
      ls, os, k := ls0, [], 0;
      CallsNone(ls0);
      while participants != []
        invariant WF(View(Fetching(a))) && Leads(s0, ls, View(Fetching(a))) && ls == ls0 + CallsOf(os)
        invariant nodes == old(nodes) && k == |os| <= |old(participants)| && participants == old(participants)[k..]
        invariant forall j :: 0 <= j < k ==> !os[j].Done?
        decreases |participants|
      {
        ghost var f := View(Fetching(a));
        var o := PickOutcome();
        MemberExists(f, 0);
        FetchDoes(f, o);
        CallsOn(ls0, os, o);
        if o.Done? {
          var snapshot := Snapshot.Encode(nodes[participants[0]].store);
          LeadsCall(s0, ls, f, o, View(Restoring(a, snapshot)));
          ghost var more;
          r, ls, more := InstallOn(a, snapshot, s0, ls + [Call(o)]);
          CallsJoin(ls0, os + [o], more);
          assert (os + [o] + more)[k + 1..] == more && old(participants)[k] == participants[0];
          os := os + [o] + more;
          return;
        }
        EraseFirst(participants);
        participants := Erase(participants, 0);
        LeadsCall(s0, ls, f, o, View(Fetching(a)));
        ls, os, k := ls + [Call(o)], os + [o], k + 1;
      }
      Configured(View(Fetching(a)));
      FetchEnds(View(Fetching(a)));
      LeadsLocal(s0, ls, View(Fetching(a)), View(Idle));
      return Failed, ls + [Local], os, k;
    }

    /** RECOVER, whose answer is ignored, then SET_NEXT_ID. */
    method InstallOn(a: Addr, snapshot: string, ghost s0: Sys, ghost ls0: seq<Label>)
      returns (r: RecoverResult, ghost ls: seq<Label>, ghost os: seq<Outcome>)
      requires WF(View(Restoring(a, snapshot))) && Leads(s0, ls0, View(Restoring(a, snapshot)))
      modifies this`nodes
      ensures a in conf && WF(View(Idle)) && ls == ls0 + CallsOf(os) && !r.Thrown?
      ensures Leads(s0, ls, if r.Recovered? then Admit(View(Idle), a) else View(Idle))
      ensures a in old(nodes) && nodes.Keys == old(nodes).Keys && nodes == old(nodes)[a := nodes[a]]
      ensures Restored(old(nodes)[a], snapshot, delKeys, nextId, os, nodes[a], r.Recovered?)
    {
      hide Leads, Snapshot.Recover, Snapshot.Encode, SortedRecords, Insert, CallsOf;
      ghost var s := View(Restoring(a, snapshot));
      Configured(s);
      var o := PickOutcome();
      ls, os := ls0 + [Call(o)], [o];
      CallsFirst(ls0, o);
      var broken := Snapshot.Recover(snapshot, delKeys, nodes[a].store).Undefined?;
      if o.Done? || o.Lost? {
        nodes := nodes[a := Participants.Recover(nodes[a], snapshot, delKeys)];
      }
      if !o.Done? || broken {
        LeadsCall(s0, ls0, s, o, View(Idle));
        return Failed, ls, os;
      }
      LeadsCall(s0, ls0, s, o, View(Renumbering(a)));
      var o2;
      r, ls, o2 := Renumber(a, s0, ls);
      CallsOn(ls0, os, o2);
      os := os + [o2];
    }

    method Renumber(a: Addr, ghost s0: Sys, ghost ls0: seq<Label>)
      returns (r: RecoverResult, ghost ls: seq<Label>, o: Outcome)
      requires WF(View(Renumbering(a))) && Leads(s0, ls0, View(Renumbering(a)))
      modifies this`nodes
      ensures a in conf && WF(View(Idle)) && ls == ls0 + [Call(o)]
      ensures Leads(s0, ls, if r.Recovered? then Admit(View(Idle), a) else View(Idle))
      ensures r == if o.Done? then Recovered else Failed
      ensures a in old(nodes)
      ensures nodes == if o.Done? || o.Lost? then old(nodes)[a := old(nodes)[a].(next := nextId)] else old(nodes)
    {
      hide Leads, SortedRecords, Insert;
      ghost var n := View(Renumbering(a));
      o := PickOutcome();
      ls := ls0 + [Call(o)];
      if o.Done? || o.Lost? {
        nodes := nodes[a := SetNextId(nodes[a], nextId)];
      }
      if !o.Done? {
        LeadsCall(s0, ls0, n, o, View(Idle));
        return Failed, ls, o;
      }
      LeadsCall(s0, ls0, n, o, Admit(View(Idle), a));
      r := Recovered;
    }

    /** A participant that has been recovered becomes a member; `ms` are the members then. */
    method Readmit(a: Addr, ghost s0: Sys, ghost ls0: seq<Label>) returns (ghost ms: seq<Addr>, ghost ls: seq<Label>)
      requires Inv(s0) && a in conf && WF(View(Idle)) && Leads(s0, ls0, Admit(View(Idle), a))
      modifies this`disk, this`records, this`commits, this`aborts, this`participants, this`delKeys, this`nodes
      modifies this`sent, this`out
      ensures WF(View(Idle)) && Leads(s0, ls, View(Idle)) && ls0 <= ls && out == old(out)
      ensures forall x :: x in ms <==> x == a || x in old(participants)
      ensures forall x :: x in participants ==> x in ms
      ensures delKeys == if |ms| == |conf| then {} else old(delKeys)
    {
      hide Leads, Inv, WF, Insert, SortedRecords, Admit;
      AdmitDoes(View(Idle), a);
      participants := Insert(participants, a);
      ms := participants;
      if |participants| == |conf| {
        delKeys := {};
      }
      ls := HandleUnfinishedRecords(s0, ls0);
    }

    /**
     * One round of heartbeat_participants for one address: o is the outcome of HEARTBEAT, r that of a recovery.
     * A failure erases the address and no other; one that is a member already is left alone; a recovered
     * one joins the members that are left, which are `ms` together with it.
     */
    method HeartbeatParticipant(a: Addr)
      returns (o: Outcome, r: RecoverResult, ghost ls: seq<Label>, ghost ls': seq<Label>, ghost mid: Sys,
               ghost ms: seq<Addr>)
      requires Inv(View(Idle)) && a in conf
      modifies this
      ensures Leads(old(View(Idle)), ls, mid) && ls != [] && (ls[0] == Beat(a) || ls[0] == BeatFail(a))
      ensures (ls' == [] && mid == View(Idle)) || (ls' == [BeatFail(a)] && Leads(mid, ls', View(Idle)))
      ensures out == old(out) && nextId == old(nextId)
      ensures !o.Done? ==>
                && View(Idle) == old(View(Idle)).(members := participants)
                && forall x :: x in participants <==> x in old(participants) && x != a
      ensures o.Done? && a in old(participants) ==> View(Idle) == old(View(Idle))
      ensures o.Done? && a !in old(participants) && !r.Recovered? ==>
                && View(Idle) == old(View(Idle)).(members := participants, nodes := nodes)
                && a !in participants && forall x :: x in participants ==> x in old(participants)
      ensures o.Done? && a !in old(participants) && r.Recovered? ==>
                && a in ms && (forall x :: x in ms ==> x == a || x in old(participants))
                && (forall x :: x in participants ==> x in ms)
                && delKeys == if |ms| == |conf| then {} else old(delKeys)
    {
      ghost var s0 := View(Idle);
      hide Leads, Inv, WF, Fetched, CallsOf, Remove, Insert, SortedRecords, Admit;
      InvWF(s0);
      ls', ms, r := [], participants, Failed;
      LeadsBeat(s0, a);
      o := PickOutcome();
      if !o.Done? {
        LeadsBeatFail(s0, a);
        participants := Remove(participants, a);
        return o, r, [BeatFail(a)], [], View(Idle), ms;
      }
      ls := [Beat(a)];
      if a !in participants {
        ghost var os, k;
        r, ls, os, k := RecoverParticipant(a, s0, ls);
        mid := View(Idle);
        match r {
          case Recovered =>
            ms, ls := Readmit(a, s0, ls);
          case Failed =>
          case Thrown =>
            LeadsBeatFail(mid, a);
            participants := Remove(participants, a);
            return o, r, ls, [BeatFail(a)], mid, ms;
        }
      }
      mid := View(Idle);
    }

    // ----- crash and start

    /** What a crash leaves: the log, the participants, and no memory. */
    method Crashed()
      modifies this`nextId, this`participants, this`delKeys, this`records
      ensures forall p: Phase :: View(Down) == DoCrash(old(View(p)))
      ensures nextId == 0 && participants == [] && delKeys == {} && records == map[]
      ensures disk == old(disk) && nodes == old(nodes) && out == old(out)
    {
      nextId, participants, delKeys, records := 0, [], {}, map[];
    }

    /** recovery(): reads the log, admits current participants, settles unfinished records. */
    method Start() returns (ghost ls: seq<Label>)
      requires Inv(View(Down))
      modifies this
      ensures Leads(old(View(Down)), ls, View(Idle)) && ls != [] && ls[0] == Boot
      ensures Inv(View(Idle)) && out == old(out) && nextId == LastNext(old(disk))
    {
      ghost var s0 := View(Down);
      hide Leads, Inv;
      InvWF(s0);
      LeadsBoot(s0);
      nextId := LastNext(disk);
      records := Replay(disk);
      ls := [Boot];
      ls := InitParticipants(s0, ls);
      LeadsLocal(s0, ls, View(Starting(|conf|)), View(Unfinished(SortedRecords(records))));
      ls := HandleUnfinishedRecords(s0, ls + [Local]);
      LeadsKeeps(s0, ls, View(Idle));
    }

    /** init_participant: the participant is entered if it answers and is up to date, and left out otherwise. */
    method InitParticipant(a: Addr) returns (o: Outcome)
      requires a in nodes
      modifies this`participants
      ensures !o.Refused?
      ensures participants ==
              if o.Done? && UpToDate(nodes[a].next, nextId, records) then Insert(old(participants), a)
              else Remove(old(participants), a)
    {
      o := PickOutcome();
      if o.Done? && UpToDate(nodes[a].next, nextId, records) {
        participants := Insert(participants, a);
      } else {
        participants := Remove(participants, a);
      }
    }

    /** Of an address that is configured several times the last occurrence decides. */
    method InitParticipants(ghost s0: Sys, ghost ls0: seq<Label>) returns (ghost ls: seq<Label>)
      requires WF(View(Starting(0))) && Leads(s0, ls0, View(Starting(0)))
      modifies this`participants
      ensures WF(View(Starting(|conf|))) && Leads(s0, ls, View(Starting(|conf|))) && ls0 <= ls
      ensures |ls| == |ls0| + |conf|
      ensures forall a :: a in participants <==>
                && a in conf && a in nodes && AnsweredLast(conf, ls[|ls0|..], a)
                && (|| nodes[a].next == nextId
                    || (nodes[a].next + 1 == nextId && nextId in records && records[nextId].status == ABORT))
    {
      hide Leads, AnsweredLast, Insert, Remove, WF, DoCall;
      Configured(View(Starting(0)));
      ls := ls0;
      for i := 0 to |conf|
        invariant WF(View(Starting(i))) && Leads(s0, ls, View(Starting(i))) && ls0 <= ls
        invariant |ls| == |ls0| + i
        invariant forall a :: a in conf[..i] ==>
                    && a in nodes
                    && (a in participants <==>
                          UpToDate(nodes[a].next, nextId, records) && AnsweredLast(conf, ls[|ls0|..], a))
      {
        ghost var s := View(Starting(i));
        var o := InitParticipant(conf[i]);
        AnsweredOn(conf, ls, |ls0|, o);
        assert conf[..i + 1] == conf[..i] + [conf[i]];
        StartsWith(s, o);
        LeadsCall(s0, ls, s, o, View(Starting(i + 1)));
        ls := ls + [Call(o)];
      }
      Configured(View(Starting(|conf|)));
      assert conf[..|conf|] == conf;
    }
  }
}
