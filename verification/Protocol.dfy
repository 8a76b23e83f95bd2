/**
 * Two-phase commit as a transition system (coordinator.cpp and participant.cpp together).
 *
 * A step is one record written to the log or one RPC, so that the coordinator can crash between
 * any two of them. Everything between taking and releasing participants_mutex_ is one walk from
 * phase Idle back to phase Idle.
 */
module Protocol {
  import opened KeyValue
  import opened Ordering
  import opened RecordLog
  import opened Participants
  import Snapshot

  /** Participants are numbered in the order of the participants_ map, that is by address string. */
  type Addr = nat

  /** What becomes of one RPC. */
  datatype Outcome =
    | Done     // executed, and the answer arrived
    | Lost     // executed, but the answer was lost
    | Dropped  // not executed
    | Refused  // PREPARE only: the handler failed to log the command and answered false

  /** Who a decision is being sent for. */
  datatype After =
    | Client(cmd: Command)      // a client that waits for the reply
    | Rest(todo: seq<Record>)   // handle_unfinished_records, with the records it still has to handle

  /** Where the coordinator is: between which two records or RPCs. */
  datatype Phase =
    | Down                                      // crashed
    | Starting(i: nat)                          // init_participants is at configured address i
    | Unfinished(todo: seq<Record>)             // handle_unfinished_records, before its next record
    | Idle                                      // participants_mutex_ is free
    | Getting(key: string)                      // GET, before its next call
    | Preparing(id: nat, cmd: Command, i: nat, ok: bool)  // prepare loop at member i; ok is prepare_ok
    | Sending(id: nat, commit: bool, i: nat, ret: string, after: After)  // decision loop at member i
    | Asking(a: Addr)                           // recover_participant, before NEXT_ID
    | Fetching(a: Addr)                         // ... before the next GET_SNAPSHOT
    | Restoring(a: Addr, snapshot: string)      // ... before RECOVER
    | Renumbering(a: Addr)                      // ... before SET_NEXT_ID
    | AssertFailed                              // assert(0) in handle_unfinished_records

  datatype Sys = Sys(
    // the coordinator's configuration and memory
    conf: seq<Addr>,
    next: nat,
    members: seq<Addr>,
    delKeys: set<string>,
    records: map<nat, Record>,
    phase: Phase,
    // what survives a crash of the coordinator
    disk: seq<Record>,
    nodes: map<Addr, Node>,
    // history, read by no step
    first: nat,                 // the first id given out
    base: Store,                // the committed store before that id
    cmds: map<nat, Command>,    // the command that was given each id
    commits: set<nat>,          // ids whose COMMIT record was ever written
    aborts: set<nat>,           // ids whose ABORT record was ever written
    sent: set<(nat, bool)>,     // decision RPCs ever issued; true is COMMIT
    out: seq<string>)           // replies sent to clients

  datatype Label =
    | Get(key: string)
    | Update(cmd: Command)
    | Beat(a: Addr)        // a heartbeat that was answered
    | BeatFail(a: Addr)    // a heartbeat round that ended in an exception
    | Call(o: Outcome)     // the next RPC
    | Local                // the next record, or a return
    | Crash
    | Boot

  // ----- participants_ as an ordered map

  predicate Ascending(ms: seq<Addr>) {
    forall i, j :: 0 <= i < j < |ms| ==> ms[i] < ms[j]
  }

  function Erase(ms: seq<Addr>, i: nat): (r: seq<Addr>)
    requires i < |ms|
    ensures |r| == |ms| - 1
    ensures forall j :: 0 <= j < i ==> r[j] == ms[j]
    ensures forall j :: i <= j < |r| ==> r[j] == ms[j + 1]
    ensures Ascending(ms) ==> Ascending(r)
    ensures forall a :: a in r ==> a in ms
  {
    ms[..i] + ms[i + 1..]
  }

  lemma AscendingCons(ms: seq<Addr>, r: seq<Addr>)
    requires ms != []
    ensures forall x :: x in ms <==> x == ms[0] || x in ms[1..]
    ensures forall x :: x in [ms[0]] + r <==> x == ms[0] || x in r
    ensures Ascending(ms) ==> Ascending(ms[1..]) && forall x :: x in ms[1..] ==> ms[0] < x
    ensures Ascending(r) && (forall x :: x in r ==> ms[0] < x) ==> Ascending([ms[0]] + r)
  {
    var t := [ms[0]] + r;
    if Ascending(r) && (forall x :: x in r ==> ms[0] < x) {
      forall i, j | 0 <= i < j < |t| ensures t[i] < t[j] {
        assert t[j] == r[j - 1] && r[j - 1] in r;
        if i > 0 {
          assert t[i] == r[i - 1];
        }
      }
    }
  }

  function Insert(ms: seq<Addr>, a: Addr): (r: seq<Addr>)
    ensures forall x :: x in r <==> x == a || x in ms
    ensures Ascending(ms) ==> Ascending(r)
  {
    if ms == [] then [a]
    else if a < ms[0] then [a] + ms
    else if a == ms[0] then ms
    else
      AscendingCons(ms, Insert(ms[1..], a));
      [ms[0]] + Insert(ms[1..], a)
  }

  function Remove(ms: seq<Addr>, a: Addr): (r: seq<Addr>)
    ensures forall x :: x in r <==> x != a && x in ms
    ensures Ascending(ms) ==> Ascending(r)
  {
    if ms == [] then []
    else
      var rest := Remove(ms[1..], a);
      AscendingCons(ms, rest);
      if ms[0] == a then rest else [ms[0]] + rest
  }

  /** The record map as handle_unfinished_records walks it. */
  function SortedRecords(m: map<nat, Record>): seq<Record> {
    if m == map[] then [] else
      var k := Least(m.Keys);
      [m[k]] + SortedRecords(m - {k})
  }

  // ----- well-formed states

  predicate WF(s: Sys) {
    && (forall a :: a in s.conf ==> a in s.nodes)
    && (forall a :: a in s.nodes ==> a in s.conf)
    && (forall a :: a in s.members ==> a in s.conf)
    && Ascending(s.members)
    && match s.phase
       case Starting(i) => i <= |s.conf|
       case Getting(_) => s.members != []
       case Preparing(_, _, i, ok) => i <= |s.members| && (!ok ==> i < |s.members|)
       case Sending(_, _, i, _, _) => i <= |s.members|
       case Asking(a) => a in s.conf && a !in s.members
       case Fetching(a) => a in s.conf && a !in s.members
       case Restoring(a, _) => a in s.conf && a !in s.members
       case Renumbering(a) => a in s.conf && a !in s.members
       case _ => true
  }

  /** Whether the coordinator's next action is an RPC. */
  predicate Calls(s: Sys) {
    match s.phase
    case Starting(i) => i < |s.conf|
    case Getting(_) => true
    case Preparing(_, _, i, ok) => ok && i < |s.members|
    case Sending(_, _, i, _, _) => i < |s.members|
    case Asking(_) => true
    case Fetching(_) => s.members != []
    case Restoring(_, _) => true
    case Renumbering(_) => true
    case _ => false
  }

  predicate Enabled(s: Sys, l: Label) {
    match l
    case Get(_) => s.phase.Idle?
    case Update(_) => s.phase.Idle?
    case Beat(a) => s.phase.Idle? && a in s.conf
    case BeatFail(a) => s.phase.Idle? && a in s.conf
    case Call(o) => Calls(s) && (o.Refused? ==> s.phase.Preparing?)
    case Local => !Calls(s) && !s.phase.Down? && !s.phase.Idle? && !s.phase.AssertFailed?
    case Crash => !s.phase.Down?
    case Boot => s.phase.Down? && LastNext(s.disk) != 0
  }

  // ----- the record log

  function Log(s: Sys, r: Record): Sys {
    s.(disk := Appended(s.disk, s.records, r),
       records := Absorb(s.records, r),
       commits := if r.status == COMMIT then s.commits + {r.id} else s.commits,
       aborts := if r.status == ABORT then s.aborts + {r.id} else s.aborts)
  }

  // ----- client requests

  function BeginGet(s: Sys, key: string): (t: Sys)
    requires WF(s) && s.phase.Idle?
    ensures WF(t)
  {
    if s.members == [] then s.(out := s.out + [ERROR_REPLY]) else s.(phase := Getting(key))
  }

  function GetCall(s: Sys, o: Outcome): (r: Sys)
    requires WF(s) && s.phase.Getting?
    ensures WF(r)
  {
    if o.Done? then
      s.(out := s.out + [GetReply(s.nodes[s.members[0]].store, s.phase.key)], phase := Idle)
    else
      var t := s.(members := Erase(s.members, 0));
      if t.members == [] then t.(out := t.out + [ERROR_REPLY], phase := Idle) else t
  }

  function BeginUpdate(s: Sys, cmd: Command): (t: Sys)
    requires WF(s) && s.phase.Idle?
    ensures WF(t)
  {
    if s.members == [] then s.(out := s.out + [ERROR_REPLY])
    else
      var id := s.next;
      Log(s.(next := id + 1, cmds := s.cmds[id := cmd]), Record(UNRESOLVED, id, id + 1))
        .(phase := Preparing(id, cmd, 0, true))
  }

  function PrepareCall(s: Sys, o: Outcome): (r: Sys)
    requires WF(s) && s.phase.Preparing? && Calls(s)
    ensures WF(r)
  {
    var Preparing(id, cmd, i, ok) := s.phase;
    var a := s.members[i];
    var executed := s.(nodes := s.nodes[a := Prepare(s.nodes[a], id, cmd)]);
    match o
    case Done => executed.(phase := Preparing(id, cmd, i + 1, true))
    case Lost => executed.(members := Erase(s.members, i))
    case Dropped => s.(members := Erase(s.members, i))
    case Refused => s.(phase := Preparing(id, cmd, i, false))
  }

  /** Writes a decision; the decision loop comes next. */
  function Decide(s: Sys, id: nat, commit: bool, after: After): (t: Sys)
    ensures WF(s) ==> WF(t)
  {
    Log(s, Record(if commit then COMMIT else ABORT, id, s.next)).(phase := Sending(id, commit, 0, "", after))
  }

  function Decided(s: Sys): Sys
    requires s.phase.Preparing?
  {
    if s.members == [] then s.(out := s.out + [ERROR_REPLY], phase := Idle)
    else Decide(s, s.phase.id, s.phase.ok, Client(s.phase.cmd))
  }

  // ----- sending a decision

  function CommitCall(s: Sys, o: Outcome): (r: Sys)
    requires WF(s) && s.phase.Sending? && s.phase.commit && Calls(s)
    ensures WF(r)
  {
    var Sending(id, _, i, ret, after) := s.phase;
    var a := s.members[i];
    var answer := CommitAnswer(s.nodes[a], id);
    var t := s.(sent := s.sent + {(id, true)},
                nodes := if o.Done? || o.Lost? then s.nodes[a := Commit(s.nodes[a], id)] else s.nodes);
    if o.Done? && answer.Answer? then
      t.(phase := Sending(id, true, i + 1, if ret == "" then answer.text else ret, after))
    else
      t.(members := Erase(s.members, i))
  }

  function AbortCall(s: Sys, o: Outcome): (r: Sys)
    requires WF(s) && s.phase.Sending? && !s.phase.commit && Calls(s)
    ensures WF(r)
  {
    var Sending(id, _, i, ret, after) := s.phase;
    var a := s.members[i];
    var t := s.(sent := s.sent + {(id, false)},
                nodes := if o.Done? || o.Lost? then s.nodes[a := Abort(s.nodes[a], id)] else s.nodes);
    if o.Done? then t.(phase := Sending(id, false, i + 1, ret, after))
    else t.(members := Erase(s.members, i))
  }

  /** The keys that handle_db_del_request remembers when some participant is missing. */
  function Remembered(s: Sys, commit: bool, cmd: Command): set<string> {
    if commit && cmd.Del? && |s.members| < |s.conf| then KeySet(cmd.keys) else {}
  }

  /** Behind the decision loop: the DONE record if anyone is left, and the reply. */
  function Finished(s: Sys): Sys
    requires s.phase.Sending?
  {
    var Sending(id, commit, _, ret, after) := s.phase;
    var t := if s.members == [] then s
             else Log(s, Record(if commit then COMMIT_DONE else ABORT_DONE, id, s.next));
    match after
    case Client(cmd) =>
      t.(out := t.out + [if commit then ret else ERROR_REPLY],
         delKeys := t.delKeys + Remembered(s, commit, cmd),
         phase := Idle)
    case Rest(todo) => t.(phase := Unfinished(todo))
  }

  // ----- recovery

  /** handle_unfinished_records, one record. */
  function NextUnfinished(s: Sys): Sys
    requires s.phase.Unfinished?
  {
    var todo := s.phase.todo;
    if todo == [] then s.(phase := Idle)
    else if todo[0].status == UNRESOLVED || todo[0].status == ABORT then Decide(s, todo[0].id, false, Rest(todo[1..]))
    else if todo[0].status == COMMIT then Decide(s, todo[0].id, true, Rest(todo[1..]))
    else s.(phase := AssertFailed)
  }

  function Admit(s: Sys, a: Addr): (t: Sys)
    ensures WF(s) && a in s.conf ==> WF(t)
  {
    var ms := Insert(s.members, a);
    s.(members := ms,
       delKeys := if |ms| == |s.conf| then {} else s.delKeys,
       phase := Unfinished(SortedRecords(s.records)))
  }

  function AskCall(s: Sys, o: Outcome): (r: Sys)
    requires WF(s) && s.phase.Asking?
    ensures WF(r)
  {
    var a := s.phase.a;
    var q := s.nodes[a].next;
    if !o.Done? then s.(phase := Idle)
    else if q == s.next then Admit(s, a)
    else if q + 1 == s.next && q in s.records && s.records[q].status == UNRESOLVED then Admit(s, a)
    else s.(phase := Fetching(a))
  }

  function FetchCall(s: Sys, o: Outcome): (r: Sys)
    requires WF(s) && s.phase.Fetching? && s.members != []
    ensures WF(r)
  {
    if o.Done? then s.(phase := Restoring(s.phase.a, Snapshot.Encode(s.nodes[s.members[0]].store)))
    else s.(members := Erase(s.members, 0))
  }

  /** The answer of RECOVER is not looked at; only an exception or a crash of the handler is seen. */
  function RestoreCall(s: Sys, o: Outcome): (r: Sys)
    requires WF(s) && s.phase.Restoring?
    ensures WF(r)
  {
    var Restoring(a, snapshot) := s.phase;
    var t := if o.Done? || o.Lost? then
               s.(nodes := s.nodes[a := Participants.Recover(s.nodes[a], snapshot, s.delKeys)])
             else s;
    if o.Done? && !Snapshot.Recover(snapshot, s.delKeys, s.nodes[a].store).Undefined? then t.(phase := Renumbering(a))
    else t.(phase := Idle)
  }

  function RenumberCall(s: Sys, o: Outcome): (r: Sys)
    requires WF(s) && s.phase.Renumbering?
    ensures WF(r)
  {
    var a := s.phase.a;
    var t := if o.Done? || o.Lost? then s.(nodes := s.nodes[a := SetNextId(s.nodes[a], s.next)]) else s;
    if o.Done? then Admit(t, a) else t.(phase := Idle)
  }

  /** The test of init_participant on the next id q of a participant: it looks up a record of next_id_ itself. */
  predicate UpToDate(q: nat, next: nat, records: map<nat, Record>) {
    q == next || (q + 1 == next && next in records && records[next].status == ABORT)
  }

  /** init_participant. */
  function StartCall(s: Sys, o: Outcome): (r: Sys)
    requires WF(s) && s.phase.Starting? && Calls(s)
    ensures WF(r)
  {
    var i := s.phase.i;
    var a := s.conf[i];
    s.(members := if o.Done? && UpToDate(s.nodes[a].next, s.next, s.records) then Insert(s.members,
        a) else Remove(s.members, a),
       phase := Starting(i + 1))
  }

  // ----- the step function

  function DoCall(s: Sys, o: Outcome): (r: Sys)
    requires WF(s) && Calls(s)
    ensures WF(r)
  {
    match s.phase
    case Getting(_) => GetCall(s, o)
    case Preparing(_, _, _, _) => PrepareCall(s, o)
    case Sending(_, commit, _, _, _) => if commit then CommitCall(s, o) else AbortCall(s, o)
    case Asking(_) => AskCall(s, o)
    case Fetching(_) => FetchCall(s, o)
    case Restoring(_, _) => RestoreCall(s, o)
    case Renumbering(_) => RenumberCall(s, o)
    case Starting(_) => StartCall(s, o)
    case _ => s
  }

  function DoLocal(s: Sys): (t: Sys)
    ensures WF(s) ==> WF(t)
  {
    match s.phase
    case Preparing(_, _, _, _) => Decided(s)
    case Sending(_, _, _, _, _) => Finished(s)
    case Unfinished(_) => NextUnfinished(s)
    case Starting(_) => s.(phase := Unfinished(SortedRecords(s.records)))
    case Fetching(_) => s.(phase := Idle)
    case _ => s
  }

  function DoCrash(s: Sys): Sys {
    s.(next := 0, members := [], delKeys := {}, records := map[], phase := Down)
  }

  /** Opens the log again; its last next id is not 0, so is_recovered stays true. */
  function DoBoot(s: Sys): Sys {
    s.(next := LastNext(s.disk), records := Replay(s.disk), phase := Starting(0))
  }

  /** One step. A label that is not enabled changes nothing. */
  function Step(s: Sys, l: Label): (t: Sys)
    ensures WF(s) ==> WF(t)
  {
    if !WF(s) || !Enabled(s, l) then s else
      match l
      case Get(key) => BeginGet(s, key)
      case Update(cmd) => BeginUpdate(s, cmd)
      case Beat(a) => if a in s.members then s else s.(phase := Asking(a))
      case BeatFail(a) => s.(members := Remove(s.members, a))
      case Call(o) => DoCall(s, o)
      case Local => DoLocal(s)
      case Crash => DoCrash(s)
      case Boot => DoBoot(s)
  }

  /** A whole run. */
  function Exec(s: Sys, ls: seq<Label>): (t: Sys)
    ensures WF(s) ==> WF(t)
  {
    if ls == [] then s else Step(Exec(s, ls[..|ls| - 1]), ls[|ls| - 1])
  }

  lemma ExecOne(s: Sys, ls: seq<Label>, l: Label)
    ensures Exec(s, ls + [l]) == Step(Exec(s, ls), l)
  {
    assert (ls + [l])[..|ls|] == ls;
  }

  lemma {:induction false} ExecConcat(s: Sys, a: seq<Label>, b: seq<Label>)
    ensures Exec(s, a + b) == Exec(Exec(s, a), b)
    decreases |b|
  {
    assert Exec(Exec(s, a), []) == Exec(s, a);
    hide Exec, Step;
    if b == [] {
      assert a + b == a;
    } else {
      var front, l := b[..|b| - 1], b[|b| - 1];
      ExecConcat(s, a, front);
      ExecOne(s, a + front, l);
      ExecOne(Exec(s, a), front, l);
      assert a + b == (a + front) + [l] && b == front + [l];
    }
  }
}
