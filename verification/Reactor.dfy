/**
 * The reactor's bookkeeping of file descriptors (reactor.cpp): callbacks, executing flags, deferred
 * removal, and the tasks handed to the worker pool. Every method holds the mutex, so any
 * interleaving of threads is a sequence of these steps.
 */
module Reactors {

  datatype Kind = Read | Write

  function Other(k: Kind): Kind {
    if k.Read? then Write else Read
  }

  /** One entry of tracked_fds_. A callback is only known to be set or null. */
  datatype Info = Info(marked: bool, rdBusy: bool, wrBusy: bool, rd: bool, wr: bool) {
    predicate Busy(k: Kind) {
      if k.Read? then rdBusy else wrBusy
    }

    predicate Callback(k: Kind) {
      if k.Read? then rd else wr
    }

    function SetBusy(k: Kind, b: bool): Info {
      if k.Read? then this.(rdBusy := b) else this.(wrBusy := b)
    }

    function SetCallback(k: Kind, on: bool): Info {
      if k.Read? then this.(rd := on) else this.(wr := on)
    }

    /** What init_select_fds asks select to watch. */
    predicate Wants(k: Kind) {
      Callback(k) && !Busy(k)
    }
  }

  const EMPTY: Info := Info(false, false, false, false, false)

  /** A callback handed to the worker pool, from dispatch until its closing critical section is over. */
  datatype Task = Task(fd: int, kind: Kind)

  /** `watched` is the pair of select sets: what is asked for, then what is ready. */
  datatype State = State(notifier: int, tracked: map<int, Info>, tasks: multiset<Task>, polled: seq<int>,
      watched: set<Task>)

  // ----- the steps

  /** tracked_fds_[fd], which creates a missing entry. */
  function Entry(s: State, fd: int): Info {
    if fd in s.tracked then s.tracked[fd] else EMPTY
  }

  function Register(s: State, fd: int, rd: bool, wr: bool): State {
    s.(tracked := s.tracked[fd := Entry(s, fd).(rd := rd, wr := wr, marked := false)])
  }

  function SetCallback(s: State, fd: int, k: Kind, on: bool): State {
    s.(tracked := s.tracked[fd := Entry(s, fd).SetCallback(k, on)])
  }

  function Unregister(s: State, fd: int): State {
    if fd !in s.tracked then s
    else if s.tracked[fd].rdBusy || s.tracked[fd].wrBusy then
      s.(tracked := s.tracked[fd := s.tracked[fd].(marked := true)])
    else s.(tracked := s.tracked - {fd})
  }

  predicate Polls(i: Info) {
    i.Wants(Read) || i.Wants(Write) || i.marked
  }

  function Filter(s: State, order: seq<int>): seq<int> {
    if order == [] then []
    else
      var front := Filter(s, order[..|order| - 1]);
      var fd := order[|order| - 1];
      if fd in s.tracked && Polls(s.tracked[fd]) then front + [fd] else front
  }

  function Wanted(s: State, order: seq<int>): set<Task> {
    set fd, k | fd in order && k in {Read, Write} && fd in s.tracked && s.tracked[fd].Wants(k) :: Task(fd, k)
  }

  /** Walks the tracked descriptors in some order. */
  function InitSelect(s: State, order: seq<int>): State {
    s.(polled := [s.notifier] + Filter(s, order), watched := {Task(s.notifier, Read)} + Wanted(s, order))
  }

  function Dispatch(s: State, fd: int, k: Kind): State
    requires fd in s.tracked
  {
    s.(tracked := s.tracked[fd := s.tracked[fd].SetBusy(k, true)], tasks := s.tasks + multiset{Task(fd, k)})
  }

  function DispatchKind(s: State, fd: int, k: Kind): (t: State)
    requires fd in s.tracked
    ensures fd in t.tracked
  {
    if Task(fd, k) in s.watched && s.tracked[fd].Wants(k) then Dispatch(s, fd, k) else s
  }

  function DispatchFd(s: State, fd: int): State {
    if fd == s.notifier && Task(fd, Read) in s.watched then s
    else if fd !in s.tracked then s
    else
      var t := DispatchKind(DispatchKind(s, fd, Read), fd, Write);
      if t.tracked[fd].marked && !t.tracked[fd].rdBusy && !t.tracked[fd].wrBusy then t.(tracked := t.tracked - {fd})
      else t
  }

  function DispatchAll(s: State, fds: seq<int>): State {
    if fds == [] then s else DispatchFd(DispatchAll(s, fds[..|fds| - 1]), fds[|fds| - 1])
  }

  /** The closing critical section of a task. */
  function Complete(s: State, fd: int, k: Kind): State {
    var t := s.(tasks := s.tasks - multiset{Task(fd, k)});
    if fd !in s.tracked then t
    else
      var i := s.tracked[fd].SetBusy(k, false);
      if i.marked && !i.Busy(Other(k)) then t.(tracked := t.tracked - {fd})
      else t.(tracked := t.tracked[fd := i])
  }

  datatype Label =
    | DoRegister(fd: int, rd: bool, wr: bool)
    | DoSetCallback(fd: int, kind: Kind, on: bool)
    | DoUnregister(fd: int)
    | DoInitSelect(order: seq<int>)   // the order in which the map happens to be walked
    | DoSelect(ready: set<Task>)      // select returns a part of what it watched
    | DoDispatch
    | DoComplete(task: Task)          // a callback has returned

  ghost predicate Enabled(s: State, l: Label) {
    match l
    case DoInitSelect(order) => forall fd :: fd in s.tracked <==> fd in order
    case DoSelect(ready) => ready <= s.watched
    case DoComplete(task) => task in s.tasks
    case _ => true
  }

  /** One step. A label that is not enabled changes nothing. */
  ghost function Step(s: State, l: Label): State {
    if !Enabled(s, l) then s else
      match l
      case DoRegister(fd, rd, wr) => Register(s, fd, rd, wr)
      case DoSetCallback(fd, k, on) => SetCallback(s, fd, k, on)
      case DoUnregister(fd) => Unregister(s, fd)
      case DoInitSelect(order) => InitSelect(s, order)
      case DoSelect(ready) => s.(watched := ready)
      case DoDispatch => DispatchAll(s, s.polled)
      case DoComplete(task) => Complete(s, task.fd, task.kind)
  }

  ghost function Exec(s: State, ls: seq<Label>): State {
    if ls == [] then s else Step(Exec(s, ls[..|ls| - 1]), ls[|ls| - 1])
  }

  // ----- the invariant

  /** One outstanding task of a kind exactly while the flag is set; a marked descriptor is executing. */
  ghost predicate Exclusive(s: State) {
    && (forall t: Task :: s.tasks[t] == if t.fd in s.tracked && s.tracked[t.fd].Busy(t.kind) then 1 else 0)
    && (forall fd :: fd in s.tracked && s.tracked[fd].marked ==> s.tracked[fd].rdBusy || s.tracked[fd].wrBusy)
  }

  lemma DispatchKindKeeps(s: State, fd: int, k: Kind)
    requires Exclusive(s) && fd in s.tracked
    ensures Exclusive(DispatchKind(s, fd, k))
  {
    var t := DispatchKind(s, fd, k);
    forall x: Task ensures t.tasks[x] == if x.fd in t.tracked && t.tracked[x.fd].Busy(x.kind) then 1 else 0 {
      assert s.tasks[x] == if x.fd in s.tracked && s.tracked[x.fd].Busy(x.kind) then 1 else 0;
    }
  }

  lemma DispatchFdKeeps(s: State, fd: int)
    requires Exclusive(s)
    ensures Exclusive(DispatchFd(s, fd))
  {
    if fd in s.tracked {
      DispatchKindKeeps(s, fd, Read);
      DispatchKindKeeps(DispatchKind(s, fd, Read), fd, Write);
    }
  }

  lemma {:induction false} DispatchAllKeeps(s: State, fds: seq<int>)
    requires Exclusive(s)
    ensures Exclusive(DispatchAll(s, fds))
    decreases |fds|
  {
    if fds == [] {
    } else {
      DispatchAllKeeps(s, fds[..|fds| - 1]);
      DispatchFdKeeps(DispatchAll(s, fds[..|fds| - 1]), fds[|fds| - 1]);
    }
  }

  lemma CompleteKeeps(s: State, task: Task)
    requires Exclusive(s) && task in s.tasks
    ensures Exclusive(Complete(s, task.fd, task.kind))
  {
    var t := Complete(s, task.fd, task.kind);
    assert s.tasks[task] == 1;
    forall x: Task ensures t.tasks[x] == if x.fd in t.tracked && t.tracked[x.fd].Busy(x.kind) then 1 else 0 {
      assert s.tasks[x] == if x.fd in s.tracked && s.tracked[x.fd].Busy(x.kind) then 1 else 0;
      assert x.kind == task.kind || x.kind == Other(task.kind);
    }
  }

  lemma StepKeeps(s: State, l: Label)
    requires Exclusive(s)
    ensures Exclusive(Step(s, l))
  {
    if Enabled(s, l) {
      match l
      case DoDispatch => DispatchAllKeeps(s, s.polled);
      case DoComplete(task) => CompleteKeeps(s, task);
      case _ =>
        var t := Step(s, l);
        forall x: Task ensures t.tasks[x] == if x.fd in t.tracked && t.tracked[x.fd].Busy(x.kind) then 1 else 0 {
          assert s.tasks[x] == if x.fd in s.tracked && s.tracked[x.fd].Busy(x.kind) then 1 else 0;
        }
    }
  }

  // ----- the main results

  /** Over all interleavings from a new reactor, outstanding tasks and flags agree, descriptor by descriptor. */
  lemma {:induction false} RunExclusive(notifier: int, ls: seq<Label>)
    ensures Exclusive(Exec(State(notifier, map[], multiset{}, [], {}), ls))
    decreases |ls|
  {
    if ls == [] {
    } else {
      RunExclusive(notifier, ls[..|ls| - 1]);
      StepKeeps(Exec(State(notifier, map[], multiset{}, [], {}), ls[..|ls| - 1]), ls[|ls| - 1]);
    }
  }

  /** A descriptor that a step erases has no callback outstanding behind that step. */
  lemma ErasedWhenIdle(s: State, l: Label, fd: int, k: Kind)
    requires Exclusive(s) && fd in s.tracked && fd !in Step(s, l).tracked
    ensures Task(fd, k) !in Step(s, l).tasks
  {
    StepKeeps(s, l);
    assert Step(s, l).tasks[Task(fd, k)] == 0;
  }

  lemma DispatchFdErasesNothing(s: State, fd: int)
    requires Exclusive(s)
    ensures DispatchFd(s, fd).tracked.Keys == s.tracked.Keys
  {
    if fd in s.tracked {
      DispatchKindKeeps(s, fd, Read);
      var t := DispatchKind(s, fd, Read);
      DispatchKindKeeps(t, fd, Write);
      assert t.tracked.Keys == s.tracked.Keys;
      assert DispatchKind(t, fd, Write).tracked.Keys == s.tracked.Keys;
    }
  }

  /** A whole dispatch round erases no descriptor. */
  lemma {:induction false} DispatchKeepsTracked(s: State, fds: seq<int>)
    requires Exclusive(s)
    ensures DispatchAll(s, fds).tracked.Keys == s.tracked.Keys
    decreases |fds|
  {
    if fds == [] {
    } else {
      var front := fds[..|fds| - 1];
      DispatchKeepsTracked(s, front);
      DispatchAllKeeps(s, front);
      DispatchFdErasesNothing(DispatchAll(s, front), fds[|fds| - 1]);
    }
  }

  /**
   * After any run a descriptor is erased only by unregister_fd while neither callback runs, or by the
   * end of its last running callback once it is marked; never by a poll or dispatch round.
   */
  lemma {:induction false} ErasedOnlyBy(notifier: int, ls: seq<Label>, l: Label, fd: int)
    requires var s := Exec(State(notifier, map[], multiset{}, [], {}), ls);
      fd in s.tracked && fd !in Step(s, l).tracked
    ensures var i := Exec(State(notifier, map[], multiset{}, [], {}), ls).tracked[fd];
      || (l == DoUnregister(fd) && !i.rdBusy && !i.wrBusy)
      || (l.DoComplete? && l.task.fd == fd && i.marked && i.Busy(l.task.kind) && !i.Busy(Other(l.task.kind)))
  {
    RunExclusive(notifier, ls);
    var s := Exec(State(notifier, map[], multiset{}, [], {}), ls);
    if l.DoDispatch? {
      DispatchKeepsTracked(s, s.polled);
    } else if l.DoComplete? {
      assert s.tasks[l.task] == 1;
    }
  }

  /** A read callback is dispatched, and its owner unregisters the descriptor before it has ended. */
  function OwnerGone(fd: int): seq<Label> {
    [DoSetCallback(fd, Read, true), DoInitSelect([fd]), DoSelect({Task(fd, Read)})] +
    [DoDispatch, DoSetCallback(fd, Read, false), DoUnregister(fd)]
  }

  lemma ExecOn(s: State, ls: seq<Label>, l: Label)
    ensures Exec(s, ls + [l]) == Step(Exec(s, ls), l)
  {
    assert (ls + [l])[..|ls|] == ls;
  }

  lemma ServedAlone(s: State, fd: int)
    requires fd != s.notifier && s.tasks == multiset{}
    requires s.tracked == map[fd := EMPTY.(rd := true)] && s.watched == {Task(fd, Read)}
    ensures DispatchFd(s, fd) ==
            s.(tracked := map[fd := EMPTY.(rd := true, rdBusy := true)], tasks := multiset{Task(fd, Read)})
  {
    var t := DispatchKind(s, fd, Read);
    assert multiset{} + multiset{Task(fd, Read)} == multiset{Task(fd, Read)};
    assert t == s.(tracked := map[fd := EMPTY.(rd := true, rdBusy := true)], tasks := multiset{Task(fd, Read)});
    assert DispatchKind(t, fd, Write) == t;
  }

  lemma DispatchAlone(s: State, fd: int)
    requires s.polled == [s.notifier, fd] && fd != s.notifier && s.tasks == multiset{}
    requires s.tracked == map[fd := EMPTY.(rd := true)] && s.watched == {Task(fd, Read)}
    ensures Step(s, DoDispatch) ==
            s.(tracked := map[fd := EMPTY.(rd := true, rdBusy := true)], tasks := multiset{Task(fd, Read)})
  {
    var n := s.notifier;
    ServedAlone(s, fd);
    assert DispatchFd(s, n) == s;
    hide DispatchFd;
    assert [n, fd][..1] == [n] && [n][..0] == [];
    assert DispatchAll(s, []) == s;
    assert DispatchAll(s, [n]) == s;
  }

  lemma SelectAlone(s: State, fd: int)
    requires s.tracked == map[fd := EMPTY.(rd := true)]
    ensures Step(s, DoInitSelect([fd])) ==
            s.(polled := [s.notifier, fd], watched := {Task(s.notifier, Read), Task(fd, Read)})
  {
    assert [fd][..0] == [];
    assert Filter(s, []) == [];
    assert Filter(s, [fd]) == [fd];
    assert fd in [fd];
    assert Wanted(s, [fd]) == {Task(fd, Read)};
  }

  lemma DispatchedAlone(s: State, fd: int)
    requires fd != s.notifier && s.tasks == multiset{} && s.tracked == map[fd := EMPTY.(rd := true)]
    ensures Step(Step(Step(s, DoInitSelect([fd])), DoSelect({Task(fd, Read)})), DoDispatch) ==
            s.(polled := [s.notifier, fd], watched := {Task(fd, Read)},
               tracked := map[fd := EMPTY.(rd := true, rdBusy := true)], tasks := multiset{Task(fd, Read)})
  {
    hide DispatchAll, InitSelect;
    var u := s.(polled := [s.notifier, fd], watched := {Task(fd, Read)});
    SelectAlone(s, fd);
    assert Step(Step(s, DoInitSelect([fd])), DoSelect({Task(fd, Read)})) == u;
    hide Step;
    DispatchAlone(u, fd);
  }

  lemma GoneState(s: State, fd: int)
    requires fd != s.notifier && s.tasks == multiset{} && s.tracked == map[]
    ensures Step(Step(Step(Step(Step(Step(s, DoSetCallback(fd, Read, true)), DoInitSelect([fd])),
        DoSelect({Task(fd, Read)})),
                           DoDispatch), DoSetCallback(fd, Read, false)), DoUnregister(fd)) ==
            s.(polled := [s.notifier, fd], watched := {Task(fd, Read)},
               tracked := map[fd := Info(true, true, false, false, false)], tasks := multiset{Task(fd, Read)})
  {
    var s1 := s.(tracked := map[fd := EMPTY.(rd := true)]);
    assert Step(s, DoSetCallback(fd, Read, true)) == s1;
    DispatchedAlone(s1, fd);
    hide DispatchAll, InitSelect;
  }

  lemma NextErased(s: State, fd: int)
    requires s.tracked == map[fd := Info(true, true, false, false, false)] && s.tasks == multiset{Task(fd, Read)}
    ensures var t := Step(s, DoSetCallback(fd, Read, true));
      fd in t.tracked && t.tracked[fd].rd && fd !in Step(t, DoComplete(Task(fd, Read))).tracked
  {
  }

  /**
   * From a new reactor: the entry of a closed descriptor lives on, marked, until the task ends. A
   * callback that the descriptor's next owner sets in that window is erased with it.
   */
  lemma {:induction false} NextOwnerIsErased(notifier: int, fd: int)
    requires fd != notifier
    ensures var s := Exec(State(notifier, map[], multiset{}, [], {}), OwnerGone(fd));
      && s.notifier == notifier && s.tasks == multiset{Task(fd, Read)}
      && s.tracked == map[fd := Info(true, true, false, false, false)]
    ensures var s := Exec(State(notifier, map[], multiset{}, [], {}), OwnerGone(fd) + [DoSetCallback(fd, Read, true)]);
      fd in s.tracked && s.tracked[fd].rd
    ensures fd !in Exec(State(notifier, map[], multiset{}, [], {}),
                        OwnerGone(fd) + [DoSetCallback(fd, Read, true)] + [DoComplete(Task(fd, Read))]).tracked
  {
    var s0 := State(notifier, map[], multiset{}, [], {});
    GoneState(s0, fd);
    hide Step, Exec;
    OwnerGoneSteps(s0, fd);
    NextErased(Exec(s0, OwnerGone(fd)), fd);
    ExecOn(s0, OwnerGone(fd), DoSetCallback(fd, Read, true));
    ExecOn(s0, OwnerGone(fd) + [DoSetCallback(fd, Read, true)], DoComplete(Task(fd, Read)));
  }

  lemma {:induction false} OwnerGoneSteps(s: State, fd: int)
    ensures Exec(s, OwnerGone(fd)) ==
            Step(Step(Step(Step(Step(Step(s, DoSetCallback(fd, Read, true)), DoInitSelect([fd])),
                DoSelect({Task(fd, Read)})),
                           DoDispatch), DoSetCallback(fd, Read, false)), DoUnregister(fd))
  {
    assert Exec(s, []) == s;
    hide Step, Exec;
    var l1, l2, l3 := DoSetCallback(fd, Read, true), DoInitSelect([fd]), DoSelect({Task(fd, Read)});
    ExecOnThree(s, [], l1, l2, l3);
    assert [] + [l1, l2, l3] == [l1, l2, l3];
    ExecOnThree(s, [l1, l2, l3], DoDispatch, DoSetCallback(fd, Read, false), DoUnregister(fd));
  }

  lemma {:induction false} ExecOnThree(s: State, ls: seq<Label>, l1: Label, l2: Label, l3: Label)
    ensures Exec(s, ls + [l1, l2, l3]) == Step(Step(Step(Exec(s, ls), l1), l2), l3)
  {
    hide Step, Exec;
    ExecOn(s, ls, l1);
    ExecOn(s, ls + [l1], l2);
    ExecOn(s, ls + [l1] + [l2], l3);
    assert ls + [l1] + [l2] + [l3] == ls + [l1, l2, l3];
  }

  /** select watches exactly the callbacks that are set and not running, and the notifier. */
  lemma WatchedExactly(s: State, order: seq<int>, fd: int, k: Kind)
    requires Enabled(s, DoInitSelect(order))
    ensures Task(fd, k) in InitSelect(s, order).watched <==>
            || (fd == s.notifier && k.Read?)
            || (fd in s.tracked &&
                if k.Read? then s.tracked[fd].rd && !s.tracked[fd].rdBusy else s.tracked[fd].wr && !s.tracked[fd].wrBusy)
    ensures fd in InitSelect(s, order).polled <==>
              || fd == s.notifier
              || (fd in s.tracked &&
                  (s.tracked[fd].marked || (s.tracked[fd].rd && !s.tracked[fd].rdBusy) ||
                   (s.tracked[fd].wr && !s.tracked[fd].wrBusy)))
  {
    FilterHolds(s, order, fd);
  }

  lemma {:induction false} FilterHolds(s: State, order: seq<int>, fd: int)
    ensures fd in Filter(s, order) <==> fd in order && fd in s.tracked && Polls(s.tracked[fd])
    decreases |order|
  {
    if order == [] {
    } else {
      var n := |order| - 1;
      FilterHolds(s, order[..n], fd);
      assert order == order[..n] + [order[n]];
    }
  }

  /** What one descriptor's turn in a round starts. */
  lemma DispatchKindStarts(s: State, x: int, kind: Kind, fd: int, k: Kind)
    requires x in s.tracked
    ensures var t := DispatchKind(s, x, kind);
      && t == s.(tracked := t.tracked, tasks := t.tasks) && t.tracked.Keys == s.tracked.Keys
      && (fd in s.tracked ==>
            && t.tracked[fd].Callback(k) == s.tracked[fd].Callback(k) && t.tracked[fd].marked == s.tracked[fd].marked
            && (t.tracked[fd].Busy(k) <==>
                  || s.tracked[fd].Busy(k)
                  || (x == fd && kind == k && s.tracked[fd].Callback(k) && Task(fd, k) in s.watched)))
  {
  }

  lemma {:induction false} DispatchFdStarts(s: State, x: int, fd: int, k: Kind)
    requires Exclusive(s)
    ensures var t := DispatchFd(s, x);
      && t == s.(tracked := t.tracked, tasks := t.tasks) && t.tracked.Keys == s.tracked.Keys
      && (fd in s.tracked ==>
            && t.tracked[fd].Callback(k) == s.tracked[fd].Callback(k)
            && (t.tracked[fd].Busy(k) <==>
                  || s.tracked[fd].Busy(k)
                  || (x == fd && s.tracked[fd].Callback(k) && Task(fd, k) in s.watched &&
                      !(fd == s.notifier && Task(fd, Read) in s.watched))))
  {
    DispatchFdErasesNothing(s, x);
    hide Exclusive, DispatchKind;
    if x in s.tracked {
      DispatchKindStarts(s, x, Read, fd, k);
      DispatchKindStarts(DispatchKind(s, x, Read), x, Write, fd, k);
    }
  }

  lemma {:induction false} RoundStarts(s: State, fds: seq<int>, fd: int, k: Kind)
    requires Exclusive(s)
    ensures var t := DispatchAll(s, fds);
      && t == s.(tracked := t.tracked, tasks := t.tasks) && t.tracked.Keys == s.tracked.Keys
      && (fd in s.tracked ==>
            && t.tracked[fd].Callback(k) == s.tracked[fd].Callback(k)
            && (t.tracked[fd].Busy(k) <==>
                  || s.tracked[fd].Busy(k)
                  || (fd in fds && s.tracked[fd].Callback(k) && Task(fd, k) in s.watched &&
                      !(fd == s.notifier && Task(fd, Read) in s.watched))))
    decreases |fds|
  {
    if fds == [] {
    } else {
      var n := |fds| - 1;
      assert DispatchAll(s, fds) == DispatchFd(DispatchAll(s, fds[..n]), fds[n]);
      hide Exclusive, DispatchFd, DispatchAll;
      RoundStarts(s, fds[..n], fd, k);
      assert fds == fds[..n] + [fds[n]];
      DispatchAllKeeps(s, fds[..n]);
      DispatchFdStarts(DispatchAll(s, fds[..n]), fds[n], fd, k);
    }
  }

  /** A dispatch round leaves a ready, wanted callback of a polled descriptor outstanding. */
  lemma {:induction false} ReadyIsDispatched(s: State, fds: seq<int>, fd: int, k: Kind)
    requires Exclusive(s) && fd in s.tracked && fd != s.notifier && Task(fd, k) in s.watched
    requires s.tracked[fd].Wants(k) || s.tracked[fd].Busy(k)
    ensures var t := DispatchAll(s, fds);
      && t.notifier == s.notifier && t.watched == s.watched && fd in t.tracked
      && t.tracked[fd].Callback(k) == s.tracked[fd].Callback(k)
      && (s.tracked[fd].Busy(k) || fd in fds ==> t.tracked[fd].Busy(k) && t.tasks[Task(fd, k)] == 1)
  {
    RoundStarts(s, fds, fd, k);
    DispatchAllKeeps(s, fds);
    var t := DispatchAll(s, fds);
    assert t.tasks[Task(fd, k)] == if fd in t.tracked && t.tracked[fd].Busy(k) then 1 else 0;
    hide Exclusive, DispatchAll;
  }

  /**
   * A dispatch round starts a callback iff the descriptor is on the poll list and tracked, the callback
   * is set and not running, and select reported it ready; the notifier's turn is skipped when it is ready.
   */
  lemma {:induction false} StartedExactly(s: State, fds: seq<int>, fd: int, k: Kind)
    requires Exclusive(s)
    ensures Task(fd, k) in DispatchAll(s, fds).tasks && Task(fd, k) !in s.tasks <==>
              && fd in fds && fd in s.tracked
              && (if k.Read? then s.tracked[fd].rd && !s.tracked[fd].rdBusy else s.tracked[fd].wr && !s.tracked[fd].wrBusy)
              && Task(fd, k) in s.watched
              && !(fd == s.notifier && Task(fd, Read) in s.watched)
    ensures Task(fd, k) in s.tasks ==> DispatchAll(s, fds).tasks[Task(fd, k)] == 1
  {
    RoundStarts(s, fds, fd, k);
    DispatchAllKeeps(s, fds);
    var t := DispatchAll(s, fds);
    assert t.tasks[Task(fd, k)] == if fd in t.tracked && t.tracked[fd].Busy(k) then 1 else 0;
    assert s.tasks[Task(fd, k)] == if fd in s.tracked && s.tracked[fd].Busy(k) then 1 else 0;
    hide Exclusive, DispatchAll;
  }

  // ----- the class

  class Reactor {
    const notifier: int
    var tracked: map<int, Info>
    var tasks: multiset<Task>
    var polled: seq<int>
    var watched: set<Task>

    ghost function View(): State
      reads this
    {
      State(notifier, tracked, tasks, polled, watched)
    }

    constructor (notifier: int)
      ensures View() == State(notifier, map[], multiset{}, [], {})
    {
      this.notifier := notifier;
      tracked, tasks, polled, watched := map[], multiset{}, [], {};
    }

    method RegisterFd(fd: int, rd: bool, wr: bool)
      modifies this
      ensures View() == Register(old(View()), fd, rd, wr)
      ensures fd in tracked && !tracked[fd].marked && tracked[fd].rd == rd && tracked[fd].wr == wr
      ensures tracked[fd].rdBusy == (fd in old(tracked) && old(tracked)[fd].rdBusy)
      ensures tracked[fd].wrBusy == (fd in old(tracked) && old(tracked)[fd].wrBusy)
      ensures forall x :: x != fd ==>
                (x in tracked <==> x in old(tracked)) && (x in tracked ==> tracked[x] == old(tracked)[x])
    {
      if fd !in tracked {
        tracked := tracked[fd := EMPTY];
      }
      tracked := tracked[fd := tracked[fd].(rd := rd, wr := wr, marked := false)];
    }

    method SetCallbackOf(fd: int, k: Kind, on: bool)
      modifies this
      ensures View() == SetCallback(old(View()), fd, k, on)
      ensures fd in tracked && (if k.Read? then tracked[fd].rd == on else tracked[fd].wr == on)
      ensures fd in old(tracked) ==>
                tracked[fd] == if k.Read? then old(tracked)[fd].(rd := on) else old(tracked)[fd].(wr := on)
      ensures fd !in old(tracked) ==> tracked[fd] == Info(false, false, false, k.Read? && on, k.Write? && on)
      ensures forall x :: x != fd ==>
                (x in tracked <==> x in old(tracked)) && (x in tracked ==> tracked[x] == old(tracked)[x])
    {
      if fd !in tracked {
        tracked := tracked[fd := EMPTY];
      }
      tracked := tracked[fd := tracked[fd].SetCallback(k, on)];
    }

    method UnregisterFd(fd: int)
      modifies this
      ensures View() == Unregister(old(View()), fd)
      ensures fd !in old(tracked) ==> tracked == old(tracked)
      ensures fd in old(tracked) && (old(tracked)[fd].rdBusy || old(tracked)[fd].wrBusy) ==>
                tracked == old(tracked)[fd := old(tracked)[fd].(marked := true)]
      ensures fd in old(tracked) && !old(tracked)[fd].rdBusy && !old(tracked)[fd].wrBusy ==> tracked == old(tracked) - {fd}
    {
      if fd !in tracked {
        return;
      }
      if tracked[fd].rdBusy || tracked[fd].wrBusy {
        tracked := tracked[fd := tracked[fd].(marked := true)];
      } else {
        tracked := tracked - {fd};
      }
    }

    /** Rebuilds the poll list and the select sets from the map, walked in the given order. */
    method InitSelectFds(order: seq<int>)
      modifies this`polled, this`watched
      ensures View() == InitSelect(old(View()), order)
      ensures forall fd, k :: Task(fd, k) in watched <==>
                || (fd == notifier && k.Read?)
                || (fd in order && fd in tracked &&
                    if k.Read? then tracked[fd].rd && !tracked[fd].rdBusy else tracked[fd].wr && !tracked[fd].wrBusy)
      ensures polled != [] && polled[0] == notifier
      ensures forall fd :: fd in polled[1..] <==>
                && fd in order && fd in tracked
                && (tracked[fd].marked || (tracked[fd].rd && !tracked[fd].rdBusy) || (tracked[fd].wr && !tracked[fd].wrBusy))
    {
      forall fd ensures fd in Filter(View(), order) <==> fd in order && fd in tracked && Polls(tracked[fd]) {
        FilterHolds(View(), order, fd);
      }
      polled := [notifier];
      watched := {Task(notifier, Read)};
      var n := 0;
      ghost var s := old(View());
      while n < |order|
        invariant 0 <= n <= |order|
        invariant polled == [notifier] + Filter(s, order[..n])
        invariant watched == {Task(notifier, Read)} + Wanted(s, order[..n])
      {
        var fd := order[n];
        assert order[..n + 1][..n] == order[..n];
        WantedStep(s, order, n);
        if fd in tracked {
          var rd, wr := tracked[fd].Wants(Read), tracked[fd].Wants(Write);
          if rd {
            watched := watched + {Task(fd, Read)};
          }
          if wr {
            watched := watched + {Task(fd, Write)};
          }
          if rd || wr || tracked[fd].marked {
            polled := polled + [fd];
          }
        }
        n := n + 1;
      }
      assert order[..n] == order;
    }

    /** Marks the callback as running and hands it to the pool. */
    method DispatchTask(fd: int, k: Kind)
      requires fd in tracked
      modifies this`tracked, this`tasks
      ensures View() == Dispatch(old(View()), fd, k)
      ensures tracked ==
              old(tracked)[fd := if k.Read? then old(tracked)[fd].(rdBusy := true) else old(tracked)[fd].(wrBusy := true)]
      ensures tasks == old(tasks) + multiset{Task(fd, k)}
    {
      tracked := tracked[fd := tracked[fd].SetBusy(k, true)];
      tasks := tasks + multiset{Task(fd, k)};
    }

    method DispatchOne(fd: int)
      modifies this`tracked, this`tasks
      ensures View() == DispatchFd(old(View()), fd)
    {
      if fd == notifier && Task(fd, Read) in watched {
        return;
      }
      if fd !in tracked {
        return;
      }
      if Task(fd, Read) in watched && tracked[fd].Wants(Read) {
        DispatchTask(fd, Read);
      }
      if Task(fd, Write) in watched && tracked[fd].Wants(Write) {
        DispatchTask(fd, Write);
      }
      if tracked[fd].marked && !tracked[fd].rdBusy && !tracked[fd].wrBusy {
        tracked := tracked - {fd};
      }
    }

    method DispatchSelect()
      modifies this`tracked, this`tasks
      ensures View() == DispatchAll(old(View()), old(polled))
      ensures Exclusive(old(View())) ==> Exclusive(View()) && tracked.Keys == old(tracked).Keys
      ensures Exclusive(old(View())) ==> forall fd, k ::
                Task(fd, k) in tasks <==>
                  || Task(fd, k) in old(tasks)
                  || (&& fd in old(polled) && fd in old(tracked)
                      && (if k.Read? then old(tracked)[fd].rd && !old(tracked)[fd].rdBusy
                          else old(tracked)[fd].wr && !old(tracked)[fd].wrBusy)
                      && Task(fd, k) in watched && !(fd == notifier && Task(fd, Read) in watched))
    {
      hide DispatchFd, Exclusive;
      RoundStartsExactly(View());
      ghost var s := View();
      var n := 0;
      while n < |polled|
        invariant 0 <= n <= |polled| && View() == DispatchAll(s, polled[..n])
      {
        assert polled[..n + 1][..n] == polled[..n];
        DispatchOne(polled[n]);
        n := n + 1;
      }
      assert polled[..n] == polled;
    }

    /** What a worker does once the callback has returned. */
    method CompleteTask(fd: int, k: Kind)
      modifies this`tracked, this`tasks
      ensures View() == Complete(old(View()), fd, k)
      ensures tasks == old(tasks) - multiset{Task(fd, k)}
      ensures fd !in old(tracked) ==> tracked == old(tracked)
      ensures fd in old(tracked) ==>
                var i := old(tracked)[fd];
                var last := i.marked && !(if k.Read? then i.wrBusy else i.rdBusy);
                tracked == if last then old(tracked) - {fd}
                           else old(tracked)[fd := if k.Read? then i.(rdBusy := false) else i.(wrBusy := false)]
    {
      tasks := tasks - multiset{Task(fd, k)};
      if fd !in tracked {
        return;
      }
      tracked := tracked[fd := tracked[fd].SetBusy(k, false)];
      if tracked[fd].marked && !tracked[fd].Busy(Other(k)) {
        tracked := tracked - {fd};
      }
    }
  }

  /** After a round exactly those tasks are outstanding that were before, or whose callback was wanted and ready. */
  lemma {:induction false} RoundStartsExactly(s: State)
    ensures Exclusive(s) ==> Exclusive(DispatchAll(s, s.polled)) && DispatchAll(s, s.polled).tracked.Keys == s.tracked.Keys
    ensures Exclusive(s) ==> forall fd, k ::
              Task(fd, k) in DispatchAll(s, s.polled).tasks <==>
                || Task(fd, k) in s.tasks
                || (&& fd in s.polled && fd in s.tracked
                    && (if k.Read? then s.tracked[fd].rd && !s.tracked[fd].rdBusy
                        else s.tracked[fd].wr && !s.tracked[fd].wrBusy)
                    && Task(fd, k) in s.watched && !(fd == s.notifier && Task(fd, Read) in s.watched))
  {
    if Exclusive(s) {
      hide Exclusive, DispatchAll;
      DispatchAllKeeps(s, s.polled);
      DispatchKeepsTracked(s, s.polled);
      forall fd, k {
        StartedExactly(s, s.polled, fd, k);
      }
    }
  }

  lemma WantedStep(s: State, order: seq<int>, n: nat)
    requires n < |order|
    ensures var fd := order[n];
      Wanted(s, order[..n + 1]) == Wanted(s, order[..n]) +
        (if fd in s.tracked && s.tracked[fd].Wants(Read) then {Task(fd, Read)} else {}) +
        (if fd in s.tracked && s.tracked[fd].Wants(Write) then {Task(fd, Write)} else {})
  {
    assert order[..n + 1] == order[..n] + [order[n]];
  }
}
