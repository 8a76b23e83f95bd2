/**
 * The request queue of one direction of a connected client (tcp_client.cpp), coupled to the
 * reactor. async_read and do_read, and likewise async_write and do_write, hold the queue's mutex,
 * but call the reactor in the middle: the reactor's own steps, the other direction and other
 * descriptors interleave with the halves of these critical sections.
 */
module TcpClients {
  import opened Reactors

  type Request = nat

  /** Who holds the queue's mutex, and how far it has got. */
  datatype Holder =
    | Nobody
    | Asking(req: Request)  // async_read: the callback is set, the request not yet pushed
    | Popped                // do_read: the request is popped, the callback not yet looked at

  /**
   * `due`: a dispatched callback has not yet run do_read. The operating system hands out a descriptor
   * again as soon as it is closed, so the reactor may still hold what a previous owner left there:
   * `theirs` says that the outstanding task is that owner's, `stale` that the callback in the entry is.
   * `asked` and `served` are history, and so is `starved`: do_read once found the queue empty.
   */
  datatype Client = Client(
    r: State, fd: int, kind: Kind,
    queue: seq<Request>, holder: Holder, due: bool, theirs: bool, stale: bool,
    asked: seq<Request>, served: seq<Request>, starved: bool)

  datatype Action =
    | Ask(req: Request)      // async_read up to set_rd_callback
    | Push                   // the rest of async_read
    | Serve                  // do_read up to the pop
    | Release                // the rest of do_read
    | Return                 // the callback has returned; the worker's closing section
    | Elsewhere(l: Label)    // a step of the reactor, of another of its users, or of the previous owner's task

  /** The reactor's steps that this direction of this client does not take itself. */
  predicate Foreign(c: Client, l: Label) {
    match l
    case DoRegister(fd, _, _) => fd != c.fd
    case DoSetCallback(fd, k, _) => !(fd == c.fd && k == c.kind)
    case DoUnregister(fd) => fd != c.fd
    case DoComplete(t) => t != Task(c.fd, c.kind) || c.theirs
    case _ => true
  }

  predicate Outstanding(c: Client) {
    Task(c.fd, c.kind) in c.r.tasks
  }

  /** Some callback is set; a descriptor that is not tracked has none. */
  predicate IsSet(c: Client) {
    c.fd in c.r.tracked && c.r.tracked[c.fd].Callback(c.kind)
  }

  /** This client's callback is set. */
  predicate Listens(c: Client) {
    IsSet(c) && !c.stale
  }

  ghost predicate Possible(c: Client, a: Action) {
    match a
    case Ask(_) => c.holder.Nobody?
    case Push => c.holder.Asking?
    case Serve => c.holder.Nobody? && c.due
    case Release => c.holder.Popped?
    case Return => Outstanding(c) && !c.theirs && !c.due && !c.holder.Popped?
    case Elsewhere(l) => Foreign(c, l) && Reactors.Enabled(c.r, l)
  }

  /** One action. An action that is not possible changes nothing. */
  ghost function Act(c: Client, a: Action): Client {
    if !Possible(c, a) then c else
      match a
      case Ask(req) => c.(r := SetCallback(c.r, c.fd, c.kind, true), stale := false, holder := Asking(req))
      case Push => c.(queue := c.queue + [c.holder.req], asked := c.asked + [c.holder.req], holder := Nobody)
      case Serve =>
        if c.queue == [] then c.(due := false, starved := true)
        else c.(due := false, served := c.served + [c.queue[0]], queue := c.queue[1..], holder := Popped)
      case Release =>
        if c.queue == [] then c.(r := SetCallback(c.r, c.fd, c.kind, false), stale := false, holder := Nobody)
        else c.(holder := Nobody)
      case Return => c.(r := Complete(c.r, c.fd, c.kind))
      case Elsewhere(l) =>
        var d := c.(r := Reactors.Step(c.r, l));
        var started := Outstanding(d) && !Outstanding(c);
        d.(due := c.due || (started && !c.stale),
           theirs := l != DoComplete(Task(c.fd, c.kind)) && (c.theirs || (started && c.stale)))
  }

  ghost function Run(c: Client, actions: seq<Action>): Client {
    if actions == [] then c else Act(Run(c, actions[..|actions| - 1]), actions[|actions| - 1])
  }

  /** A client on a socket just accepted or connected, on a reactor in any state. */
  function Fresh(r: State, fd: int, kind: Kind): Client {
    var task := Task(fd, kind) in r.tasks;
    var set_ := fd in r.tracked && r.tracked[fd].Callback(kind);
    Client(r, fd, kind, [], Nobody, false, task, set_, [], [], false)
  }

  ghost predicate Accepted(c: Client) {
    Exclusive(c.r) && c.fd != c.r.notifier && c == Fresh(c.r, c.fd, c.kind)
  }

  /** The descriptor's previous owner has unregistered it, but a task of that owner has not ended. */
  predicate LeftOver(c: Client) {
    c.fd in c.r.tracked && c.r.tracked[c.fd].marked
  }

  // ----- the invariant

  ghost predicate Coupled(c: Client) {
    && Exclusive(c.r)
    && !LeftOver(c)
    && (match c.holder
        case Nobody => Listens(c) <==> c.queue != []
        case Asking(_) => Listens(c)
        case Popped => Listens(c) && Outstanding(c) && !c.due && !c.theirs)
    && (c.due ==> Outstanding(c) && !c.theirs && (c.queue != [] || c.holder.Asking?))
    && (c.theirs ==> Outstanding(c))
    && c.asked == c.served + c.queue
    && !c.starved
  }

  lemma OutstandingIffBusy(c: Client)
    requires Exclusive(c.r)
    ensures Outstanding(c) <==> c.fd in c.r.tracked && c.r.tracked[c.fd].Busy(c.kind)
  {
    assert c.r.tasks[Task(c.fd, c.kind)] == if c.fd in c.r.tracked && c.r.tracked[c.fd].Busy(c.kind) then 1 else 0;
  }

  // ----- what foreign steps leave alone

  /** A dispatch keeps callbacks and marks, and starts only callbacks that are set. */
  lemma DispatchKindLeaves(s: State, x: int, kind: Kind, fd: int, k: Kind)
    requires x in s.tracked && fd in s.tracked
    ensures var t := DispatchKind(s, x, kind);
      && fd in t.tracked
      && t.tracked[fd].Callback(k) == s.tracked[fd].Callback(k)
      && t.tracked[fd].marked == s.tracked[fd].marked
      && (s.tracked[fd].Busy(k) ==> t.tracked[fd].Busy(k))
      && (t.tracked[fd].Busy(k) ==> s.tracked[fd].Busy(k) || s.tracked[fd].Callback(k))
  {
  }

  lemma DispatchFdLeaves(s: State, x: int, fd: int, k: Kind)
    requires fd in s.tracked && !s.tracked[fd].marked
    ensures var t := DispatchFd(s, x);
      && fd in t.tracked && !t.tracked[fd].marked
      && t.tracked[fd].Callback(k) == s.tracked[fd].Callback(k)
      && (s.tracked[fd].Busy(k) ==> t.tracked[fd].Busy(k))
      && (t.tracked[fd].Busy(k) ==> s.tracked[fd].Busy(k) || s.tracked[fd].Callback(k))
  {
    hide DispatchKind;
    if x in s.tracked {
      DispatchKindLeaves(s, x, Read, fd, k);
      DispatchKindLeaves(DispatchKind(s, x, Read), x, Write, fd, k);
    }
  }

  lemma {:induction false} DispatchAllLeaves(s: State, fds: seq<int>, fd: int, k: Kind)
    requires fd in s.tracked && !s.tracked[fd].marked
    ensures var t := DispatchAll(s, fds);
      && fd in t.tracked && !t.tracked[fd].marked
      && t.tracked[fd].Callback(k) == s.tracked[fd].Callback(k)
      && (s.tracked[fd].Busy(k) ==> t.tracked[fd].Busy(k))
      && (t.tracked[fd].Busy(k) ==> s.tracked[fd].Busy(k) || s.tracked[fd].Callback(k))
    decreases |fds|
  {
    hide DispatchFd;
    if fds == [] {
    } else {
      DispatchAllLeaves(s, fds[..|fds| - 1], fd, k);
      DispatchFdLeaves(DispatchAll(s, fds[..|fds| - 1]), fds[|fds| - 1], fd, k);
    }
  }

  /** A descriptor that is not tracked stays so in a dispatch round. */
  lemma {:induction false} DispatchAllSkips(s: State, fds: seq<int>, fd: int)
    requires fd !in s.tracked
    ensures fd !in DispatchAll(s, fds).tracked
    decreases |fds|
  {
    if fds == [] {
    } else {
      DispatchAllSkips(s, fds[..|fds| - 1], fd);
    }
  }

  lemma CompleteLeaves(s: State, task: Task, fd: int, k: Kind)
    requires fd in s.tracked && !s.tracked[fd].marked
    ensures var t := Complete(s, task.fd, task.kind);
      && fd in t.tracked && !t.tracked[fd].marked
      && t.tracked[fd].Callback(k) == s.tracked[fd].Callback(k)
      && t.tracked[fd].Busy(k) == (s.tracked[fd].Busy(k) && task != Task(fd, k))
  {
  }

  lemma SelectLeaves(s: State, order: seq<int>)
    ensures InitSelect(s, order).tracked == s.tracked
  {
    hide Filter, Wanted;
  }

  /** On a tracked descriptor that is not marked: no foreign step touches its callback or marks it. */
  lemma ForeignLeaves(c: Client, l: Label)
    requires Foreign(c, l) && c.fd in c.r.tracked && !c.r.tracked[c.fd].marked
    ensures var t := Reactors.Step(c.r, l);
      && c.fd in t.tracked && !t.tracked[c.fd].marked
      && t.tracked[c.fd].Callback(c.kind) == c.r.tracked[c.fd].Callback(c.kind)
      && (c.r.tracked[c.fd].Busy(c.kind) && l != DoComplete(Task(c.fd, c.kind)) ==> t.tracked[c.fd].Busy(c.kind))
      && (t.tracked[c.fd].Busy(c.kind) ==> c.r.tracked[c.fd].Busy(c.kind) || c.r.tracked[c.fd].Callback(c.kind))
      && (l == DoComplete(Task(c.fd, c.kind)) && Reactors.Enabled(c.r, l) ==> !t.tracked[c.fd].Busy(c.kind))
  {
    hide DispatchAll, InitSelect, Complete;
    match l
    case DoDispatch => DispatchAllLeaves(c.r, c.r.polled, c.fd, c.kind);
    case DoComplete(t) => CompleteLeaves(c.r, t, c.fd, c.kind);
    case DoInitSelect(order) => SelectLeaves(c.r, order);
    case _ =>
  }

  /** On a descriptor that is not tracked: an entry can appear, but without this callback. */
  lemma ForeignCreates(c: Client, l: Label)
    requires Foreign(c, l) && c.fd !in c.r.tracked
    ensures var t := Reactors.Step(c.r, l);
      c.fd in t.tracked ==>
        !t.tracked[c.fd].marked && !t.tracked[c.fd].Callback(c.kind) && !t.tracked[c.fd].Busy(c.kind)
  {
    if l.DoDispatch? {
      DispatchAllSkips(c.r, c.r.polled, c.fd);
    }
  }

  // ----- the main results

  lemma ElsewhereKeeps(c: Client, l: Label)
    requires Coupled(c) && Possible(c, Elsewhere(l))
    ensures Coupled(Act(c, Elsewhere(l)))
  {
    var d := Act(c, Elsewhere(l));
    Reactors.StepKeeps(c.r, l);
    OutstandingIffBusy(c);
    OutstandingIffBusy(d);
    if c.fd in c.r.tracked {
      ForeignLeaves(c, l);
    } else {
      ForeignCreates(c, l);
    }
    hide Exclusive, Reactors.Step, Reactors.Enabled, Foreign;
  }

  lemma ActKeeps(c: Client, a: Action)
    requires Coupled(c)
    ensures Coupled(Act(c, a))
  {
    var d := Act(c, a);
    OutstandingIffBusy(c);
    if Possible(c, a) {
      match a
      case Ask(_) =>
        Reactors.StepKeeps(c.r, DoSetCallback(c.fd, c.kind, true));
        assert d.r == Reactors.Step(c.r, DoSetCallback(c.fd, c.kind, true));
      case Push =>
        assert (c.served + c.queue) + [c.holder.req] == c.served + (c.queue + [c.holder.req]);
      case Serve =>
        assert c.queue == [c.queue[0]] + c.queue[1..];
        assert c.served + c.queue == (c.served + [c.queue[0]]) + c.queue[1..];
      case Release =>
        Reactors.StepKeeps(c.r, DoSetCallback(c.fd, c.kind, false));
        assert SetCallback(c.r, c.fd, c.kind, false) == Reactors.Step(c.r, DoSetCallback(c.fd, c.kind, false));
      case Return =>
        CompleteKeeps(c.r, Task(c.fd, c.kind));
      case Elsewhere(l) =>
        ElsewhereKeeps(c, l);
    }
  }

  lemma {:induction false} RunKeeps(c: Client, actions: seq<Action>)
    requires Coupled(c)
    ensures Coupled(Run(c, actions))
    decreases |actions|
  {
    if actions == [] {
    } else {
      RunKeeps(c, actions[..|actions| - 1]);
      ActKeeps(Run(c, actions[..|actions| - 1]), actions[|actions| - 1]);
    }
  }

  lemma AcceptedIsCoupled(c: Client)
    requires Accepted(c) && !LeftOver(c)
    ensures Coupled(c)
  {
  }

  /**
   * Outside the critical sections the client's callback is set iff requests are waiting; do_read has
   * never met an empty queue; requests are served in the order they were made, none skipped and none
   * twice.
   */
  ghost predicate InStep(c: Client) {
    && (c.holder.Nobody? ==> (Listens(c) <==> c.queue != []))
    && !c.starved
    && c.served <= c.asked && c.asked == c.served + c.queue
  }

  /** While a client stays connected, whatever interleaves, unless a marked entry was left under its descriptor. */
  lemma {:induction false} QueueAndCallbackAgree(c: Client, actions: seq<Action>)
    requires Accepted(c) && !LeftOver(c)
    ensures InStep(Run(c, actions))
  {
    AcceptedIsCoupled(c);
    RunKeeps(c, actions);
  }

  /** No request is stranded: if one waits, the next poll round watches the descriptor or a task on it has not ended. */
  lemma {:induction false} WaitingIsWatched(c: Client, actions: seq<Action>, order: seq<int>)
    requires Accepted(c) && !LeftOver(c)
    ensures var d := Run(c, actions);
      d.holder.Nobody? && d.queue != [] && Reactors.Enabled(d.r, DoInitSelect(order)) ==>
        Outstanding(d) || Task(d.fd, d.kind) in InitSelect(d.r, order).watched
  {
    AcceptedIsCoupled(c);
    RunKeeps(c, actions);
    var d := Run(c, actions);
    if Reactors.Enabled(d.r, DoInitSelect(order)) {
      WatchedExactly(d.r, order, d.fd, d.kind);
      OutstandingIffBusy(d);
    }
  }

  lemma StartedByDispatch(s: State, l: Label, fd: int, k: Kind)
    requires Exclusive(s) && Task(fd, k) !in s.tasks && Task(fd, k) in Reactors.Step(s, l).tasks
    ensures l.DoDispatch? && Task(fd, k) in s.watched && fd in s.polled && fd in s.tracked && s.tracked[fd].Callback(k)
  {
    if l.DoDispatch? {
      StartedExactly(s, s.polled, fd, k);
    }
  }

  /** do_read is only ever due behind a dispatch round for which select had reported the descriptor ready. */
  lemma {:induction false} DueOnlyWhenReady(c: Client, actions: seq<Action>, a: Action)
    requires Accepted(c) && !LeftOver(c)
    requires !Run(c, actions).due && Act(Run(c, actions), a).due
    ensures var d := Run(c, actions);
      && a == Elsewhere(DoDispatch)
      && Task(d.fd, d.kind) in d.r.watched && d.fd in d.r.polled && Listens(d) && !Outstanding(d)
  {
    AcceptedIsCoupled(c);
    RunKeeps(c, actions);
    var d := Run(c, actions);
    assert Possible(d, a) && a.Elsewhere?;
    hide Run, Accepted, Reactors.Step;
    StartedByDispatch(d.r, a.l, d.fd, d.kind);
  }

  // ----- a descriptor with a marked entry

  /** A request waits, and the reactor does not know the descriptor. */
  ghost predicate Stranded(c: Client) {
    c.holder.Nobody? && c.queue != [] && c.fd !in c.r.tracked && !Outstanding(c)
  }

  function Ended(c: Client, k: Kind): Action {
    Elsewhere(DoComplete(Task(c.fd, k)))
  }

  /** A first request on such a descriptor: the callback goes into the marked entry. */
  lemma {:induction false} AskedOnMarked(c: Client, req: Request)
    requires Accepted(c) && LeftOver(c)
    ensures var d := Run(c, [Ask(req), Push]);
      && Exclusive(d.r) && d == c.(r := d.r, queue := [req], asked := [req], stale := false)
      && d.fd in d.r.tracked && d.r.tracked[d.fd] == c.r.tracked[c.fd].SetCallback(c.kind, true)
  {
    var c1 := Act(c, Ask(req));
    Reactors.StepKeeps(c.r, DoSetCallback(c.fd, c.kind, true));
    assert c1.r == Reactors.Step(c.r, DoSetCallback(c.fd, c.kind, true));
    RunOne(c, Ask(req));
    RunOn(c, [Ask(req)], Push);
  }

  lemma RunOne(c: Client, a: Action)
    ensures Run(c, [a]) == Act(c, a)
  {
    assert [a][..0] == [];
  }

  lemma RunOn(c: Client, actions: seq<Action>, a: Action)
    ensures Run(c, actions + [a]) == Act(Run(c, actions), a)
  {
    assert (actions + [a])[..|actions|] == actions;
  }

  lemma CompleteMarked(s: State, fd: int, k: Kind)
    requires fd in s.tracked && s.tracked[fd].marked && s.tracked[fd].Busy(k)
    ensures var t := Complete(s, fd, k);
      if s.tracked[fd].Busy(Other(k)) then fd in t.tracked && t.tracked[fd] == s.tracked[fd].SetBusy(k, false)
      else fd !in t.tracked
  {
  }

  /** The end of a task on a marked entry: the last one takes the entry with it. */
  lemma EndOnMarked(c: Client, k: Kind)
    requires Exclusive(c.r) && LeftOver(c) && c.r.tracked[c.fd].Busy(k) && (k == c.kind ==> c.theirs)
    ensures var d := Act(c, Ended(c, k));
      && Exclusive(d.r) && d.queue == c.queue && d.holder == c.holder && d.fd == c.fd && d.kind == c.kind
      && (k != c.kind ==> d.theirs == c.theirs)
      && if c.r.tracked[c.fd].Busy(Other(k)) then
           d.fd in d.r.tracked && d.r.tracked[d.fd] == c.r.tracked[c.fd].SetBusy(k, false)
         else d.fd !in d.r.tracked
  {
    var task := Task(c.fd, k);
    assert c.r.tasks[task] == 1;
    CompleteKeeps(c.r, task);
    CompleteMarked(c.r, c.fd, k);
    assert Reactors.Step(c.r, DoComplete(task)) == Complete(c.r, c.fd, k);
    assert Possible(c, Ended(c, k));
    hide Exclusive, Complete, Reactors.Step, Possible;
  }

  /** The run: a request is made, then the previous owner's tasks end. */
  lemma {:induction false} LeftOverStrands(c: Client, req: Request) returns (actions: seq<Action>)
    requires Accepted(c) && LeftOver(c)
    ensures Stranded(Run(c, actions))
  {
    actions := [Ask(req), Push];
    AskedOnMarked(c, req);
    OutstandingIffBusy(c);
    var d := Run(c, actions);
    assert d.r.tracked[d.fd].rdBusy || d.r.tracked[d.fd].wrBusy;
    hide Exclusive, Run, Act;
    var k := if d.r.tracked[d.fd].Busy(c.kind) then c.kind else Other(c.kind);
    EndOnMarked(d, k);
    RunOn(c, actions, Ended(d, k));
    actions := actions + [Ended(d, k)];
    d := Run(c, actions);
    if d.fd in d.r.tracked {
      EndOnMarked(d, Other(c.kind));
      RunOn(c, actions, Ended(d, Other(c.kind)));
      actions := actions + [Ended(d, Other(c.kind))];
    }
    OutstandingIffBusy(Run(c, actions));
  }

  /** Queue and callback stay in step in every run iff no marked entry is left under the descriptor. */
  lemma {:induction false} InStepIffNothingLeftOver(c: Client)
    requires Accepted(c)
    ensures (forall actions :: InStep(Run(c, actions))) <==> !LeftOver(c)
  {
    if LeftOver(c) {
      var actions := LeftOverStrands(c, 0);
      assert !InStep(Run(c, actions));
    } else {
      forall actions ensures InStep(Run(c, actions)) {
        QueueAndCallbackAgree(c, actions);
      }
    }
  }

  /** There is such a client: its descriptor was closed while a callback of its previous owner was running. */
  lemma LeftOverIsReachable(notifier: int, fd: int, kind: Kind)
    requires fd != notifier
    ensures var c := Fresh(Reactors.Exec(State(notifier, map[], multiset{}, [], {}), OwnerGone(fd)), fd, kind);
      Accepted(c) && LeftOver(c)
  {
    RunExclusive(notifier, OwnerGone(fd));
    NextOwnerIsErased(notifier, fd);
    hide Reactors.Exec, Exclusive;
  }

  // ----- the class, for one direction

  class RequestQueue {
    const fd: int
    const kind: Kind
    const reactor: Reactor
    var requests: seq<Request>
    var connected: bool

    /** The object, with the mutex free, is the client c. */
    ghost predicate Shows(c: Client)
      reads this, reactor
    {
      c.r == reactor.View() && c.fd == fd && c.kind == kind && c.queue == requests && c.holder == Nobody
    }

    /** A client on a socket that is already connected. It registers nothing. */
    constructor (reactor: Reactor, fd: int, kind: Kind)
      ensures this.reactor == reactor && this.fd == fd && this.kind == kind && requests == [] && connected
      ensures Shows(Fresh(reactor.View(), fd, kind))
    {
      this.reactor, this.fd, this.kind, requests, connected := reactor, fd, kind, [], true;
    }

    /** async_read and async_write: sets the callback, then appends the request; throws once disconnected. */
    method AsyncRequest(req: Request, ghost c: Client) returns (ok: bool)
      requires Shows(c)
      modifies this`requests, reactor
      ensures ok == connected
      ensures Shows(if ok then Act(Act(c, Ask(req)), Push) else c)
      ensures ok ==> requests == old(requests) + [req] && reactor.View() == SetCallback(old(reactor.View()), fd, kind, true)
      ensures !ok ==> requests == old(requests) && reactor.View() == old(reactor.View())
    {
      if !connected {
        return false;
      }
      reactor.SetCallbackOf(fd, kind, true);
      requests := requests + [req];
      ok := true;
    }

    /**
     * do_read and do_write, from a dispatched callback: serves the front request and clears the callback
     * behind the last one, whether or not the socket call `works`. With no request the source leaves
     * `success` unset.
     */
    method DoRequest(works: bool, ghost c: Client) returns (req: seq<Request>, success: bool)
      requires Shows(c) && c.due
      modifies this`requests, reactor
      ensures req == if old(requests) == [] then [] else [old(requests)[0]]
      ensures req != [] ==> success == works
      ensures Shows(Act(Act(c, Serve), Release))
      ensures requests == if old(requests) == [] then [] else old(requests)[1..]
      ensures reactor.View() == if |old(requests)| == 1 then SetCallback(old(reactor.View()), fd, kind, false)
                                else old(reactor.View())
    {
      if requests == [] {
        success := *;
        return [], success;
      }
      req, success := [requests[0]], works;
      requests := requests[1..];
      if requests == [] {
        reactor.SetCallbackOf(fd, kind, false);
      }
    }

    /** disconnect, this direction's part: no more requests, and the descriptor is given up. */
    method Disconnect()
      modifies this`requests, this`connected, reactor
      ensures !connected
      ensures old(connected) ==> requests == [] && reactor.View() == Unregister(old(reactor.View()), fd)
      ensures !old(connected) ==> requests == old(requests) && reactor.View() == old(reactor.View())
    {
      if !connected {
        return;
      }
      connected := false;
      requests := [];
      reactor.UnregisterFd(fd);
    }

    /**
     * on_read_available and on_write_available: one request served; a failed socket call disconnects.
     * With no request the outcome is left to chance; QueueAndCallbackAgree says when that never happens.
     */
    method OnAvailable(works: bool, ghost c: Client) returns (req: seq<Request>, success: bool)
      requires Shows(c) && c.due
      modifies this`requests, this`connected, reactor
      ensures req == if old(requests) == [] then [] else [old(requests)[0]]
      ensures req != [] ==> success == works
      ensures var d := Act(Act(c, Serve), Release);
              if success || !old(connected) then Shows(d) && connected == old(connected)
              else !connected && requests == [] && reactor.View() == Unregister(d.r, fd)
    {
      req, success := DoRequest(works, c);
      if !success {
        Disconnect();
      }
    }
  }
}
