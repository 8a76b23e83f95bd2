/**
 * What clients see: the replies of a whole run are those of one sequential store that serves the
 * requests one after the other, in the order in which they were taken up.
 */
module History {
  import opened KeyValue
  import opened RecordLog
  import opened Participants
  import opened Protocol
  import opened Decisions
  import opened Agreement
  import opened Sequences
  import opened TwoPhaseCommit
  import Snapshot

  // ----- one sequential store

  datatype Response =
    | Silent              // the coordinator crashed before it replied
    | Text(text: string)

  /**
   * A request that has run to its end: whether it took effect, and whether a member was left then.
   */
  datatype Event = Event(req: Label, applied: bool, left: bool, response: Response)

  predicate Request(l: Label) {
    l.Get? || l.Update?
  }

  function StoreBehind(st: Store, e: Event): Store {
    if e.req.Update? && e.applied then Apply(e.req.cmd, st) else st
  }

  /** The store after a sequence of events. */
  function StoreAfter(st: Store, evs: seq<Event>): Store {
    if evs == [] then st else StoreBehind(StoreAfter(st, evs[..|evs| - 1]), evs[|evs| - 1])
  }

  /**
   * The reply that a store owes: the value to a GET while a member is left; its own reply to an update
   * that took effect, or the empty string if no member is left to take it from; otherwise the error.
   */
  predicate Correct(st: Store, e: Event) {
    e.response.Silent? ||
    e.response.text ==
      match e.req
      case Get(key) => if e.left then GetReply(st, key) else ERROR_REPLY
      case Update(cmd) => if !e.applied then ERROR_REPLY else if e.left then Reply(cmd, st) else ""
      case _ => e.response.text
  }

  /** Each event is answered on the store that the events before it leave. */
  ghost predicate Serial(st: Store, evs: seq<Event>) {
    forall i :: 0 <= i < |evs| ==> Correct(StoreAfter(st, evs[..i]), evs[i])
  }

  function Requests(evs: seq<Event>): seq<Label> {
    seq(|evs|, i requires 0 <= i < |evs| => evs[i].req)
  }

  function Replies(evs: seq<Event>): seq<string> {
    if evs == [] then [] else
      Replies(evs[..|evs| - 1]) +
      match evs[|evs| - 1].response
      case Silent => []
      case Text(text) => [text]
  }

  // ----- how a run looks from there

  /** The request being served. */
  function Pending(p: Phase): seq<Label> {
    match p
    case Getting(key) => [Get(key)]
    case Preparing(_, cmd, _, _) => [Update(cmd)]
    case Sending(_, _, _, _, Client(cmd)) => [Update(cmd)]
    case _ => []
  }

  /** The request that a step takes up, if any. One that arrives while another is served waits for the mutex. */
  function Takes(s: Sys, l: Label): seq<Label> {
    if Request(l) && WF(s) && s.phase.Idle? then [l] else []
  }

  /** The request that a step ends, if any: it took effect iff its COMMIT is on record. */
  function Ends(s: Sys, l: Label): seq<Event> {
    var t := Step(s, l);
    var p := Pending(s.phase) + Takes(s, l);
    if p == [] || Pending(t.phase) != [] then [] else
      [Event(p[0], s.phase.Sending? && s.phase.commit, t.members != [],
             if l.Crash? || t.out == [] then Silent else Text(t.out[|t.out| - 1]))]
  }

  /** The requests that a run takes up. */
  function Taken(s: Sys, ls: seq<Label>): seq<Label> {
    if ls == [] then [] else
      var n := |ls| - 1;
      Taken(s, ls[..n]) + Takes(Exec(s, ls[..n]), ls[n])
  }

  /** The requests that a run ends. */
  function Events(s: Sys, ls: seq<Label>): seq<Event> {
    if ls == [] then [] else
      var n := |ls| - 1;
      Events(s, ls[..n]) + Ends(Exec(s, ls[..n]), ls[n])
  }

  /** The steps that end a request, one for each of Events. */
  function EndedBy(s: Sys, ls: seq<Label>): seq<Label> {
    if ls == [] then [] else
      var n := |ls| - 1;
      EndedBy(s, ls[..n]) + (if Ends(Exec(s, ls[..n]), ls[n]) == [] then [] else [ls[n]])
  }

  /** Exactly the requests that a crash ends get no reply. */
  ghost predicate SilentIffCrashed(evs: seq<Event>, enders: seq<Label>) {
    |enders| == |evs| && forall i :: 0 <= i < |evs| ==> (evs[i].response.Silent? <==> enders[i].Crash?)
  }

  /** The store before the request being served, and the committed store otherwise. */
  ghost function Settled(s: Sys): Store {
    if s.phase.Sending? && s.phase.commit && s.phase.after.Client? then Before(s) else Committed(s)
  }

  /** A step as the sequential store sees it. */
  ghost predicate Sees(s: Sys, taken: seq<Label>, evs: seq<Event>, t: Sys) {
    && |evs| <= 1
    && t.out == s.out + Replies(evs)
    && Pending(s.phase) + taken == Requests(evs) + Pending(t.phase)
    && Settled(t) == StoreAfter(Settled(s), evs)
    && (evs != [] ==> Correct(Settled(s), evs[0]))
  }

  /** ... and a request that ends without a crash leaves the mutex free. */
  ghost predicate StepIsSeen(s: Sys, l: Label) {
    && Sees(s, Takes(s, l), Ends(s, l), Step(s, l))
    && (Ends(s, l) != [] && !l.Crash? ==>
          Step(s, l).phase.Idle? && Ends(s, l)[0].left == (Step(s, l).members != []) && Ends(s, l)[0].response.Text?)
    && (Ends(s, l) != [] && l.Crash? ==> Ends(s, l)[0].response.Silent?)
  }

  lemma NoEvent(s: Sys, l: Label, t: Sys)
    requires t == Step(s, l) && t.out == s.out && Pending(s.phase) + Takes(s, l) == Pending(t.phase) &&
        Settled(t) == Settled(s)
    ensures StepIsSeen(s, l)
  {
    hide Step, Pending, Settled, Takes;
    assert Requests([]) == [];
  }

  lemma Single(st: Store, e: Event)
    ensures Requests([e]) == [e.req]
    ensures Replies([e]) == if e.response.Text? then [e.response.text] else []
    ensures StoreAfter(st, [e]) == StoreBehind(st, e)
  {
    assert [e][..0] == [];
  }

  lemma OneEvent(s: Sys, l: Label, e: Event, t: Sys)
    requires t == Step(s, l) && Pending(s.phase) + Takes(s, l) == [e.req] && Pending(t.phase) == []
    requires e.applied == (s.phase.Sending? && s.phase.commit) && e.left == (t.members != [])
    requires if l.Crash? then e.response.Silent? && t.out == s.out
             else t.phase.Idle? && e.response.Text? && t.out == s.out + [e.response.text]
    requires Correct(Settled(s), e) && Settled(t) == StoreBehind(Settled(s), e)
    ensures StepIsSeen(s, l)
  {
    hide Step, Pending, Settled, Takes, StoreBehind, StoreAfter, Requests, Replies, Correct;
    assert Ends(s, l) == [e];
    Single(Settled(s), e);
    assert [e.req] + [] == [e.req];
  }

  // ----- every step

  lemma SameSettled(s: Sys, t: Sys)
    requires 0 < DiskNext(s)
    requires t.disk == s.disk && t.base == s.base && t.first == s.first && t.cmds == s.cmds && t.commits == s.commits
    requires (s.phase.Sending? <==> t.phase.Sending?) && (s.phase.Sending? ==>
        t.phase.commit == s.phase.commit && t.phase.after == s.phase.after)
    ensures Settled(t) == Settled(s)
  {
    SameCommitted(s, t);
  }

  lemma {:induction false} RequestIsSeen(s: Sys, l: Label)
    requires Agree(true, s) && s.phase.Idle? && Request(l)
    ensures StepIsSeen(s, l)
  {
    hide StepIsSeen;
    var t := Step(s, l);
    if s.members == [] {
      SameSettled(s, t);
      OneEvent(s, l, Event(l, false, false, Text(ERROR_REPLY)), t);
    } else {
      if l.Update? {
        NewIdCommitted(s, l.cmd);
      } else {
        SameSettled(s, t);
      }
      NoEvent(s, l, t);
    }
  }

  /** What a GET call does. */
  lemma GetShape(s: Sys, o: Outcome)
    requires WF(s) && s.phase.Getting?
    ensures s.members[0] in s.nodes
    ensures var t := GetCall(s, o);
      && t == s.(members := t.members, out := t.out, phase := t.phase)
      && if o.Done? then
           t.members == s.members && t.phase.Idle? &&
               t.out == s.out + [GetReply(s.nodes[s.members[0]].store, s.phase.key)]
         else
           || (t.members == [] && t.phase.Idle? && t.out == s.out + [ERROR_REPLY])
           || (t.members != [] && t.phase == s.phase && t.out == s.out)
  {
    assert s.members[0] in s.members;
    hide Erase, GetReply, Ascending;
  }

  lemma {:induction false} GetCallIsSeen(s: Sys, o: Outcome)
    requires Agree(true, s) && s.phase.Getting? && Enabled(s, Call(o))
    ensures StepIsSeen(s, Call(o))
  {
    var t := GetCall(s, o);
    assert Step(s, Call(o)) == t && 0 < DiskNext(s);
    GetShape(s, o);
    ServedByCommitted(s);
    hide StepIsSeen, Agree, Step, WF, GetCall, Committed, Before;
    SameSettled(s, t);
    if t.phase.Idle? {
      OneEvent(s, Call(o), Event(Get(s.phase.key), false, o.Done?, Text(if o.Done? then GetReply(Committed(s),
          s.phase.key) else ERROR_REPLY)), t);
    } else {
      NoEvent(s, Call(o), t);
    }
  }

  /** A call that ends no request: log, decisions and replies stay, and so does what is being served. */
  ghost predicate Leaves(s: Sys, t: Sys) {
    && t.out == s.out && t.disk == s.disk && t.base == s.base && t.first == s.first
    && t.cmds == s.cmds && t.commits == s.commits
    && Pending(t.phase) == Pending(s.phase)
    && (s.phase.Sending? <==> t.phase.Sending?)
    && (s.phase.Sending? ==> t.phase.commit == s.phase.commit && t.phase.after == s.phase.after)
  }

  lemma SendLeaves(s: Sys, o: Outcome)
    requires WF(s) && Calls(s) && s.phase.Sending?
    ensures Leaves(s, DoCall(s, o))
  {
    hide WF, Erase, Commit, CommitAnswer, Abort;
  }

  lemma PrepareLeaves(s: Sys, o: Outcome)
    requires WF(s) && Calls(s) && s.phase.Preparing?
    ensures Leaves(s, DoCall(s, o))
  {
    hide WF, Erase, Prepare;
  }

  lemma AdmitLeaves(s: Sys, o: Outcome)
    requires WF(s) && Calls(s) && (s.phase.Asking? || s.phase.Renumbering?)
    ensures Leaves(s, DoCall(s, o))
  {
    hide WF, SortedRecords, Insert;
  }

  lemma FetchLeaves(s: Sys, o: Outcome)
    requires WF(s) && Calls(s) && (s.phase.Fetching? || s.phase.Restoring? || s.phase.Starting?)
    ensures Leaves(s, DoCall(s, o))
  {
    hide WF, Snapshot.Encode, Snapshot.Recover, Insert, Remove, Erase;
  }

  lemma {:induction false} OtherCall(s: Sys, o: Outcome)
    requires WF(s) && Calls(s) && !s.phase.Getting?
    ensures Leaves(s, DoCall(s, o))
  {
    hide WF, DoCall, Leaves;
    if s.phase.Sending? {
      SendLeaves(s, o);
    } else if s.phase.Preparing? {
      PrepareLeaves(s, o);
    } else if s.phase.Asking? || s.phase.Renumbering? {
      AdmitLeaves(s, o);
    } else {
      FetchLeaves(s, o);
    }
  }

  lemma {:induction false} DecidedIsSeen(s: Sys)
    requires Agree(true, s) && s.phase.Preparing? && Enabled(s, Local)
    ensures StepIsSeen(s, Local)
  {
    hide StepIsSeen, Committed, Before;
    var Preparing(id, cmd, i, ok) := s.phase;
    var t := Decided(s);
    assert Step(s, Local) == t;
    assert id in DiskRecords(s);
    if s.members == [] {
      SameSettled(s, t);
      OneEvent(s, Local, Event(Update(cmd), false, false, Text(ERROR_REPLY)), t);
    } else {
      DecidedStore(s, id, ok, Client(cmd));
      NoEvent(s, Local, t);
    }
  }

  lemma {:induction false} FinishedCommitted(s: Sys)
    requires Inv(s) && s.phase.Sending?
    ensures Committed(Finished(s)) == Committed(s)
    ensures s.phase.id in s.cmds
    ensures Committed(s) == if s.phase.commit then Apply(s.cmds[s.phase.id], Before(s)) else Before(s)
    ensures s.phase.after.Client? ==> s.cmds[s.phase.id] == s.phase.after.cmd
  {
    var Sending(id, commit, i, ret, after) := s.phase;
    assert id in DiskRecords(s);
    CommittedIsNext(s);
    var t := Finished(s);
    if s.members != [] {
      var r := Record(if commit then COMMIT_DONE else ABORT_DONE, id, s.next);
      DoneStore(s, r);
      SameCommitted(Log(s, r), t);
    } else {
      SameCommitted(s, t);
    }
  }

  lemma {:induction false} FinishedIsSeen(s: Sys)
    requires Agree(true, s) && s.phase.Sending? && Enabled(s, Local)
    ensures StepIsSeen(s, Local)
  {
    var Sending(id, commit, i, ret, after) := s.phase;
    var t := Finished(s);
    assert Inv(s) && Step(s, Local) == t && Takes(s, Local) == [];
    hide Inv, Step, Finished, Committed, Before;
    FinishedCommitted(s);
    if commit && after.Client? {
      CollectedReply(s);
    }
    FinishedShape(s);
    hide StepIsSeen, Agree;
    if after.Client? {
      OneEvent(s, Local, Event(Update(after.cmd), commit, t.members != [], Text(if commit then ret else ERROR_REPLY)), t);
    } else {
      NoEvent(s, Local, t);
    }
  }

  lemma {:induction false} UnfinishedCommitted(s: Sys)
    requires Inv(s) && s.phase.Unfinished?
    ensures var t := NextUnfinished(s);
      Settled(t) == Committed(s) && t.out == s.out && Pending(t.phase) == []
  {
    var todo := s.phase.todo;
    if todo == [] {
      SameCommitted(s, NextUnfinished(s));
    } else {
      var r := todo[0];
      assert r.id in DiskRecords(s);
      assert r.status == COMMIT ==> r.id in s.commits;
      assert LogInv(s) && DiskRecords(s).Keys == {r.id} && (r.status == COMMIT ==> r.id !in s.aborts);
      assert r.status != COMMIT ==> r.id !in s.commits;
      assert r.status == UNRESOLVED || r.status == ABORT || r.status == COMMIT;
      hide Inv, LogInv, Decide, Committed, Before;
      DecidedStore(s, r.id, r.status == COMMIT, Rest(todo[1..]));
    }
  }

  lemma {:induction false} UnfinishedIsSeen(s: Sys)
    requires Inv(s) && s.phase.Unfinished?
    ensures StepIsSeen(s, Local)
  {
    UnfinishedCommitted(s);
    var t := NextUnfinished(s);
    assert Step(s, Local) == t;
    hide StepIsSeen, Inv, Step, NextUnfinished, Committed, Before;
    NoEvent(s, Local, t);
  }

  /** A crash ends the request being served without a reply. */
  lemma {:induction false} CrashIsSeen(s: Sys)
    requires Inv(s) && Enabled(s, Crash)
    ensures StepIsSeen(s, Crash)
  {
    var t := DoCrash(s);
    assert Step(s, Crash) == t;
    SameCommitted(s, t);
    if s.phase.Sending? {
      FinishedCommitted(s);
    }
    hide StepIsSeen, Inv, Step, Committed, Before;
    var p := Pending(s.phase);
    if p == [] {
      NoEvent(s, Crash, t);
    } else {
      OneEvent(s, Crash, Event(p[0], s.phase.Sending? && s.phase.commit, false, Silent), t);
    }
  }

  ghost predicate Quietly(s: Sys, l: Label) {
    l.Beat? || l.BeatFail? || l.Boot? || (l.Local? && (s.phase.Starting? || s.phase.Fetching?))
  }

  lemma QuietLeaves(s: Sys, l: Label)
    requires WF(s) && Enabled(s, l) && Quietly(s, l)
    ensures Leaves(s, Step(s, l)) && Takes(s, l) == []
  {
    hide WF, Remove, SortedRecords, Replay;
  }

  lemma {:induction false} QuietIsSeen(s: Sys, l: Label)
    requires Inv(s) && Enabled(s, l) && Quietly(s, l)
    ensures StepIsSeen(s, l)
  {
    var t := Step(s, l);
    assert WF(s) && 0 < DiskNext(s);
    hide StepIsSeen, Inv, Step, Quietly, Enabled, WF;
    QuietLeaves(s, l);
    SameSettled(s, t);
    NoEvent(s, l, t);
  }

  lemma {:induction false} CallIsSeen(s: Sys, o: Outcome)
    requires Agree(true, s) && Enabled(s, Call(o)) && !s.phase.Getting?
    ensures StepIsSeen(s, Call(o))
  {
    var t := DoCall(s, o);
    assert WF(s) && 0 < DiskNext(s);
    assert Step(s, Call(o)) == t;
    OtherCall(s, o);
    hide StepIsSeen, Agree, DoCall, Step;
    SameSettled(s, t);
    NoEvent(s, Call(o), t);
  }

  /** Every step ends at most one request, with a reply that is correct on the store before it. */
  lemma {:induction false} EveryStepIsSeen(s: Sys, l: Label)
    requires Agree(true, s)
    ensures StepIsSeen(s, l)
  {
    if !Enabled(s, l) {
      NoEvent(s, l, s);
    } else if Request(l) {
      RequestIsSeen(s, l);
    } else if l.Call? {
      if s.phase.Getting? {
        GetCallIsSeen(s, l.o);
      } else {
        CallIsSeen(s, l.o);
      }
    } else if l.Crash? {
      CrashIsSeen(s);
    } else if l.Local? && s.phase.Preparing? {
      DecidedIsSeen(s);
    } else if l.Local? && s.phase.Sending? {
      FinishedIsSeen(s);
    } else if l.Local? && s.phase.Unfinished? {
      UnfinishedIsSeen(s);
    } else {
      QuietIsSeen(s, l);
    }
  }

  // ----- whole runs

  /** The run from s to t, seen as a sequence of events on the one store. */
  ghost predicate Explains(s: Sys, taken: seq<Label>, evs: seq<Event>, t: Sys) {
    && Serial(Settled(s), evs)
    && t.out == s.out + Replies(evs)
    && Pending(s.phase) + taken == Requests(evs) + Pending(t.phase)
    && Settled(t) == StoreAfter(Settled(s), evs)
  }

  lemma {:induction false} Joined(st: Store, evs: seq<Event>, evs': seq<Event>)
    requires |evs'| <= 1
    ensures Requests(evs + evs') == Requests(evs) + Requests(evs')
    ensures Replies(evs + evs') == Replies(evs) + Replies(evs')
    ensures StoreAfter(st, evs + evs') == StoreAfter(StoreAfter(st, evs), evs')
    ensures Serial(st, evs) && (evs' != [] ==> Correct(StoreAfter(st, evs), evs'[0])) ==> Serial(st, evs + evs')
  {
    var all := evs + evs';
    assert Requests(all) == Requests(evs) + Requests(evs');
    if evs' == [] {
      assert all == evs;
    } else {
      assert all[..|evs|] == evs && evs'[..0] == [];
      assert forall i :: 0 <= i < |all| ==> all[..i] == evs[..i];
    }
  }

  lemma {:induction false} ExplainsOn(s: Sys, taken: seq<Label>, evs: seq<Event>, t: Sys, more: seq<Label>,
      evs': seq<Event>, u: Sys)
    requires Explains(s, taken, evs, t) && Sees(t, more, evs', u)
    ensures Explains(s, taken + more, evs + evs', u)
  {
    hide Serial, Correct, Replies, Requests, StoreAfter, Pending, Settled;
    Joined(Settled(s), evs, evs');
    Regroup(s.out, Replies(evs), Replies(evs'));
    Regroup(Pending(s.phase), taken, more);
    Regroup(Requests(evs), Pending(t.phase), more);
    Regroup(Requests(evs), Requests(evs'), Pending(u.phase));
  }

  lemma {:induction false} Unmoved(s: Sys)
    ensures Explains(s, [], [], s)
  {
    assert Requests([]) == [] && Replies([]) == [];
    assert Pending(s.phase) + [] == [] + Pending(s.phase);
  }

  lemma SilentOn(s: Sys, l: Label, evs: seq<Event>, enders: seq<Label>)
    requires StepIsSeen(s, l) && SilentIffCrashed(evs, enders)
    ensures SilentIffCrashed(evs + Ends(s, l), enders + if Ends(s, l) == [] then [] else [l])
  {
    hide Step, Pending, Takes, Settled;
  }

  lemma {:induction false} RunExplained(s: Sys, ls: seq<Label>)
    requires Agree(true, s) && SmallRun(ls) && CleanRun(s, ls)
    ensures Explains(s, Taken(s, ls), Events(s, ls), Exec(s, ls))
    ensures SilentIffCrashed(Events(s, ls), EndedBy(s, ls))
    decreases |ls|
  {
    hide Explains, Agree, Step, SmallRun, CleanRun, Takes, Ends, Sees;
    if ls == [] {
      Unmoved(s);
    } else {
      var n := |ls| - 1;
      LastStep(true, s, ls);
      RunExplained(s, ls[..n]);
      RunAgrees(true, s, ls[..n]);
      var t := Exec(s, ls[..n]);
      EveryStepIsSeen(t, ls[n]);
      SilentOn(t, ls[n], Events(s, ls[..n]), EndedBy(s, ls[..n]));
      ExplainsOn(s, Taken(s, ls[..n]), Events(s, ls[..n]), t, Takes(t, ls[n]), Ends(t, ls[n]), Step(t, ls[n]));
    }
  }

  /**
   * All replies of a run are those of a sequential store that starts as the base store and serves
   * the requests in the order they were taken up; it ends as the committed store. Every request that
   * ends has one reply, unless a crash ends it.
   */
  lemma {:induction false} RunIsSequential(s: Sys, ls: seq<Label>)
    requires FirstStart(s) && SmallRun(ls) && CleanRun(s, ls)
    ensures var t := Exec(s, ls);
      var evs := Events(s, ls);
      && Serial(s.base, evs)
      && SilentIffCrashed(evs, EndedBy(s, ls))
      && t.out == s.out + Replies(evs)
      && Taken(s, ls) == Requests(evs) + Pending(t.phase)
      && (t.phase.Idle? ==> Committed(t) == StoreAfter(s.base, evs))
  {
    FirstStartAgrees(s);
    RunExplained(s, ls);
    assert Settled(s) == s.base;
    assert Pending(s.phase) + Taken(s, ls) == Taken(s, ls);
  }

  // ----- one critical section

  /** The request that is served from s on, with the mutex free again in t, was answered as the store owes. */
  ghost predicate Replied(s: Sys, req: Label, t: Sys) {
    exists e: Event ::
      && e.req == req && e.left == (t.members != []) && e.response.Text?
      && Correct(Committed(s), e) && Committed(t) == StoreBehind(Committed(s), e)
      && t.out == s.out + [e.response.text]
  }

  /** One request is taken up at the start; it is still being served, or has ended with the mutex free. */
  ghost predicate Serving(req: Label, taken: seq<Label>, evs: seq<Event>, u: Sys) {
    && taken == [req]
    && (|| (evs == [] && Pending(u.phase) != [])
        || (u.phase.Idle? && |evs| == 1 && evs[0].left == (u.members != []) && evs[0].response.Text?))
  }

  lemma {:induction false} ServingStarts(s: Sys, req: Label)
    requires Agree(true, s) && s.phase.Idle? && Request(req)
    ensures Serving(req, Takes(s, req), Ends(s, req), Step(s, req))
  {
    EveryStepIsSeen(s, req);
    hide Agree, Step, Ends;
    assert Takes(s, req) == [req];
    assert Ends(s, req) == [] ==> Pending(s.phase) + [req] == Pending(Step(s, req).phase);
  }

  lemma {:induction false} ServingGoesOn(req: Label, taken: seq<Label>, evs: seq<Event>, u: Sys, l: Label)
    requires Serving(req, taken, evs, u) && Agree(true, u) && (l.Call? || l.Local?)
    ensures Serving(req, taken + Takes(u, l), evs + Ends(u, l), Step(u, l))
  {
    EveryStepIsSeen(u, l);
    assert u.phase.Idle? ==> Step(u, l) == u && Ends(u, l) == [];
    assert Ends(u, l) == [] ==> Pending(u.phase) + [] == [] + Pending(Step(u, l).phase);
    hide Agree, Step, Ends;
    assert Takes(u, l) == [] && taken + [] == taken && evs + [] == evs;
  }

  lemma {:induction false} ServingAfter(s: Sys, ls: seq<Label>)
    requires Agree(true, s) && s.phase.Idle? && ls != [] && Request(ls[0]) && WithinLimit(ls[0])
    requires forall i :: 1 <= i < |ls| ==> ls[i].Call? || ls[i].Local?
    ensures Serving(ls[0], Taken(s, ls), Events(s, ls), Exec(s, ls))
    decreases |ls|
  {
    hide Agree, Step, Takes, Ends, Serving;
    var n := |ls| - 1;
    if n == 0 {
      assert ls[..0] == [];
      assert [] + Takes(s, ls[0]) == Takes(s, ls[0]) && [] + Ends(s, ls[0]) == Ends(s, ls[0]);
      ServingStarts(s, ls[0]);
    } else {
      ServingAfter(s, ls[..n]);
      RunAgrees(true, s, ls[..n]);
      ServingGoesOn(ls[0], Taken(s, ls[..n]), Events(s, ls[..n]), Exec(s, ls[..n]), ls[n]);
    }
  }

  lemma OneReplied(s: Sys, req: Label, e: Event, t: Sys)
    requires Explains(s, [req], [e], t) && s.phase.Idle? && t.phase.Idle?
    requires e.left == (t.members != []) && e.response.Text?
    ensures Replied(s, req, t)
  {
    Single(Committed(s), e);
    assert Serial(Committed(s), [e]) && [e][..0] == [] && StoreAfter(Committed(s), []) == Committed(s);
    assert [e][0] == e;
    hide Requests, Replies, Serial, StoreAfter, Correct, Committed, Before;
    assert Pending(s.phase) + [req] == [req] && [e.req] + Pending(t.phase) == [e.req];
    assert [e.req][0] == req;
  }

  /** Serving one request from Idle back to Idle answers it as the committed store owes, and nothing else. */
  lemma {:induction false} SectionReplies(s: Sys, ls: seq<Label>)
    requires Agree(true, s) && s.phase.Idle? && ls != [] && Request(ls[0]) && WithinLimit(ls[0])
    requires forall i :: 1 <= i < |ls| ==> ls[i].Call? || ls[i].Local?
    requires Exec(s, ls).phase.Idle?
    ensures Replied(s, ls[0], Exec(s, ls))
  {
    hide Agree, Exec, Explains, Replied;
    ServingAfter(s, ls);
    RunExplained(s, ls);
    var evs := Events(s, ls);
    assert evs == [evs[0]];
    OneReplied(s, ls[0], evs[0], Exec(s, ls));
  }

  lemma IdleSettled(s: Sys)
    requires s.phase.Idle?
    ensures Settled(s) == Committed(s)
  {
  }

  /**
   * While a request is still being served, no reply has been given, and the store before it is the
   * committed one at its start.
   */
  lemma {:induction false} StillServing(s: Sys, ls: seq<Label>)
    requires Agree(true, s) && s.phase.Idle? && ls != [] && Request(ls[0]) && WithinLimit(ls[0])
    requires forall i :: 1 <= i < |ls| ==> ls[i].Call? || ls[i].Local?
    requires Pending(Exec(s, ls).phase) != []
    ensures var t := Exec(s, ls); Agree(true, t) && Settled(t) == Committed(s) && t.out == s.out
  {
    hide Exec, Agree, Events, Settled, Committed, Takes;
    ServingAfter(s, ls);
    RunExplained(s, ls);
    RunAgrees(true, s, ls);
    IdleSettled(s);
    var t := Exec(s, ls);
    assert Events(s, ls) == [];
    assert Replies([]) == [] && s.out + [] == s.out;
    assert StoreAfter(Settled(s), []) == Settled(s) == Committed(s);
  }
}
