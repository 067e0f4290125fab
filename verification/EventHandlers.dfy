/**
 The poll thread of the Linux event handler: sockets, the timer list behind one timer descriptor,
 and the loops over what epoll reports and what the isolates send.
 */
module EventHandlers {
  import opened Basics
  import opened Listeners
  import opened Descriptors
  import opened EventLoop
  import T = Timeouts

  // ----- Sockets and timers together -----

  /** `armed` is when the timer descriptor will fire, `rung` the ports told that their time has come. */
  datatype Loop = Loop(
    sockets: Handler, timers: seq<T.Deadline>, armed: Option<int>, rung: seq<Port>, shutdown: bool)

  const IDLE := Loop(INITIAL, [], None, [], false)

  datatype Input = Socket(m: Message) | Timer(port: Port, time: int) | Shutdown

  datatype Ready = SocketReady(e: Event) | TimerFired

  function Earliest(timers: seq<T.Deadline>): Option<int> {
    if timers == [] then None else Some(timers[T.FirstMin(timers)].at)
  }

  /** When the timer fires that timerfd_settime sets to the earliest deadline: a value of zero disarms it. */
  function Alarm(timers: seq<T.Deadline>): Option<int> {
    if Earliest(timers) == Some(0) then None else Earliest(timers)
  }

  function OnInput(l: Loop, i: Input): Loop {
    match i
    case Socket(m) => l.(sockets := OnMessage(l.sockets, m))
    case Timer(port, time) =>
      var timers := T.Update(l.timers, port, time);
      l.(timers := timers, armed := Alarm(timers))
    case Shutdown => l.(shutdown := true)
  }

  /** The timer fires once and is then disarmed; only a message arms it again. */
  function OnReady(l: Loop, r: Ready): Loop {
    match r
    case SocketReady(e) => l.(sockets := OnEvent(l.sockets, e))
    case TimerFired =>
      if l.timers == [] then l.(armed := None)
      else
        var port := l.timers[T.FirstMin(l.timers)].port;
        l.(timers := T.Update(l.timers, port, -1), armed := None, rung := l.rung + [port])
  }

  function OnInputs(l: Loop, inputs: seq<Input>): Loop
    decreases |inputs|
  {
    if inputs == [] then l else OnInputs(OnInput(l, inputs[0]), inputs[1..])
  }

  function OnReadies(l: Loop, ready: seq<Ready>): Loop
    decreases |ready|
  {
    if ready == [] then l else OnReadies(OnReady(l, ready[0]), ready[1..])
  }

  // ----- The sockets do not notice the timers -----

  function Messages(inputs: seq<Input>): seq<Message> {
    if inputs == [] then []
    else if inputs[0].Socket? then [inputs[0].m] + Messages(inputs[1..])
    else Messages(inputs[1..])
  }

  function Events(ready: seq<Ready>): seq<Event> {
    if ready == [] then []
    else if ready[0].SocketReady? then [ready[0].e] + Events(ready[1..])
    else Events(ready[1..])
  }

  lemma {:induction false} InputsProject(l: Loop, inputs: seq<Input>)
    ensures OnInputs(l, inputs).sockets == OnMessages(l.sockets, Messages(inputs))
    decreases |inputs|
  {
    if inputs != [] {
      InputsProject(OnInput(l, inputs[0]), inputs[1..]);
      if inputs[0].Socket? { assert Messages(inputs)[1..] == Messages(inputs[1..]); }
    }
  }

  lemma {:induction false} ReadiesProject(l: Loop, ready: seq<Ready>)
    ensures OnReadies(l, ready).sockets == OnEvents(l.sockets, Events(ready))
    decreases |ready|
  {
    if ready != [] {
      ReadiesProject(OnReady(l, ready[0]), ready[1..]);
      if ready[0].SocketReady? { assert Events(ready)[1..] == Events(ready[1..]); }
    }
  }

  // ----- The timer -----

  ghost predicate TimersOk(l: Loop) {
    T.UniquePorts(l.timers) && T.Nonnegative(l.timers)
  }

  /** The timer descriptor is set as the last timer message left it. */
  ghost predicate Armed(l: Loop) {
    l.armed == Alarm(l.timers)
  }

  /** The timer descriptor will fire at the earliest deadline, and not at all without one. */
  ghost predicate InTime(l: Loop) {
    l.armed == Earliest(l.timers)
  }

  ghost predicate NoneZero(timers: seq<T.Deadline>) {
    forall i :: 0 <= i < |timers| ==> timers[i].at != 0
  }

  lemma InTimeIff(l: Loop)
    requires TimersOk(l) && Armed(l)
    ensures InTime(l) <==> NoneZero(l.timers)
  {
    if l.timers != [] {
      var k := T.FirstMin(l.timers);
      assert l.timers[k] in l.timers;
      forall i | 0 <= i < |l.timers| ensures 0 <= l.timers[k].at <= l.timers[i].at { assert l.timers[i] in l.timers; }
    }
  }

  /**
   A timer message sets or removes one deadline and sets the timer to the earliest one, whatever was
   before. The timer is then in time exactly when no deadline is zero.
   */
  lemma TimerSet(l: Loop, port: Port, time: int)
    requires TimersOk(l)
    ensures var l' := OnInput(l, Timer(port, time));
      && TimersOk(l') && Armed(l') && (InTime(l') <==> NoneZero(l'.timers))
      && T.AsMap(l'.timers) == if time < 0 then T.AsMap(l.timers) - {port} else T.AsMap(l.timers)[port := time]
  {
    T.UpdateRefinesMap(l.timers, port, time);
    T.UpdateNonnegative(l.timers, port, time);
    InTimeIff(OnInput(l, Timer(port, time)));
  }

  /** Whatever the isolates send, the timer stays in time exactly when no deadline is zero. */
  lemma {:induction false} InputsInTime(l: Loop, inputs: seq<Input>)
    requires TimersOk(l) && Armed(l)
    ensures var l' := OnInputs(l, inputs);
      TimersOk(l') && Armed(l') && (InTime(l') <==> NoneZero(l'.timers))
    decreases |inputs|
  {
    if inputs == [] {
      InTimeIff(l);
    } else {
      if inputs[0].Timer? { TimerSet(l, inputs[0].port, inputs[0].time); }
      InputsInTime(OnInput(l, inputs[0]), inputs[1..]);
    }
  }

  /** The deadlines that messages ask for. */
  function Deadlines(inputs: seq<Input>, m: map<Port, int>): map<Port, int>
    decreases |inputs|
  {
    if inputs == [] then m
    else match inputs[0]
    case Timer(port, time) => Deadlines(inputs[1..], if time < 0 then m - {port} else m[port := time])
    case _ => Deadlines(inputs[1..], m)
  }

  /** Each port has the deadline it has last asked for, and the handler is to stop once it was told to. */
  lemma {:induction false} InputsAsAsked(l: Loop, inputs: seq<Input>)
    requires TimersOk(l)
    ensures var l' := OnInputs(l, inputs);
      && T.AsMap(l'.timers) == Deadlines(inputs, T.AsMap(l.timers)) && l'.rung == l.rung
      && (l'.shutdown <==> l.shutdown || Shutdown in inputs)
    decreases |inputs|
  {
    if inputs != [] {
      if inputs[0].Timer? { TimerSet(l, inputs[0].port, inputs[0].time); }
      InputsAsAsked(OnInput(l, inputs[0]), inputs[1..]);
      assert Shutdown in inputs <==> inputs[0] == Shutdown || Shutdown in inputs[1..];
    }
  }

  /** A deadline of zero is pending and nothing will wake the handler for it. */
  lemma ZeroDeadlineMissed(port: Port)
    ensures var l := OnInput(IDLE, Timer(port, 0));
      l.timers == [T.Deadline(port, 0)] && l.armed == None && !InTime(l)
  {
    assert T.AsMap([]) == map[];
  }

  /**
   When the timer fires, the port with the earliest deadline is told and its deadline removed. The
   timer is not armed for the next one: it is still in time exactly when no other deadline is pending.
   */
  lemma FiredInTime(l: Loop)
    requires TimersOk(l) && Armed(l) && l.armed.Some?
    ensures var l' := OnReady(l, TimerFired);
      && TimersOk(l') && l'.rung == l.rung + [l.timers[T.FirstMin(l.timers)].port]
      && (InTime(l') <==> |l.timers| == 1)
  {
    var k := T.FirstMin(l.timers);
    T.RemoveAt(l.timers, k);
  }

  /** Two isolates wait, the first is told, and nothing will wake the handler for the second. */
  lemma SecondDeadlineMissed() returns (inputs: seq<Input>)
    ensures var l := OnReady(OnInputs(IDLE, inputs), TimerFired);
      OnInputs(IDLE, inputs).armed == Some(5) && l.rung == [1] && l.timers == [T.Deadline(2, 7)] && l.armed == None
  {
    inputs := [Timer(1, 5), Timer(2, 7)];
    var l1 := OnInput(IDLE, inputs[0]);
    assert l1.timers == [T.Deadline(1, 5)] && inputs[1..] == [Timer(2, 7)];
    var l2 := OnInput(l1, inputs[1]);
    assert 2 !in T.AsMap(l1.timers) && l2.timers == [T.Deadline(2, 7), T.Deadline(1, 5)];
    assert inputs[1..][1..] == [] && OnInputs(IDLE, inputs) == l2;
    assert T.FirstMin(l2.timers) == 1;
    assert l2.timers[1..] == [T.Deadline(1, 5)] && 1 in T.AsMap(l2.timers);
  }

  // ----- The loops themselves -----

  class EventHandlerImplementation {
    var socketMap: map<Fd, Ptr>
    var heap: map<Ptr, Desc>
    var next: Ptr
    var epoll: map<Fd, Registration>
    var timers: seq<T.Deadline>
    var armed: Option<int>
    var shutdown: bool
    /** What the clients have received; no part of the handler's own memory. */
    ghost var unacked: Ledger
    ghost var posted: multiset<(Port, int)>
    ghost var rung: seq<Port>

    ghost function Sockets(): Handler
      reads this
    {
      Handler(socketMap, heap, next, epoll, unacked, posted)
    }

    ghost function View(): Loop
      reads this
    {
      Loop(Sockets(), timers, armed, rung, shutdown)
    }

    constructor ()
      ensures View() == IDLE
    {
      socketMap, heap, next, epoll, unacked, posted := map[], map[], 0, map[], map[], multiset{};
      timers, armed, rung, shutdown := [], None, [], false;
    }

    /** NotifyAllDartPorts, with what the clients receive. */
    method BroadcastEvent(ptr: Ptr, event: int)
      requires ptr in heap
      modifies this`heap, this`unacked, this`posted
      ensures Sockets() == NotifyAllAt(old(Sockets()), ptr, event)
    {
      var info := heap[ptr].info;
      heap := heap[ptr := heap[ptr].(info := NotifyAllOf(info))];
      unacked := Sent(info, ptr, unacked);
      posted := posted + multiset(set p | p in Audience(info) :: (p, event));
    }

    method AddToEpollInstance(ptr: Ptr, ok: bool)
      requires ptr in heap
      modifies this`epoll, this`heap, this`unacked, this`posted
      ensures Sockets() == AddToEpoll(old(Sockets()), ptr, ok)
    {
      var d := heap[ptr];
      if ok && d.fd !in epoll {
        epoll := epoll[d.fd := Registration(ptr, PollInterest(EventMask(d.info)), !d.info.Multiple?)];
      } else {
        BroadcastEvent(ptr, CLOSE_EVENT);
      }
    }

    method UpdateEpollInstance(oldMask: int, ptr: Ptr, ok: bool)
      requires ptr in heap && (heap[ptr].info.Multiple? ==> oldMask == 0 || oldMask == IN_EVENT)
      modifies this`epoll, this`heap, this`unacked, this`posted
      ensures Sockets() == UpdateEpoll(old(Sockets()), oldMask, ptr, ok)
    {
      var d := heap[ptr];
      var newMask := EventMask(d.info);
      if oldMask != 0 && newMask == 0 {
        epoll := epoll - {d.fd};
      } else if oldMask == 0 && newMask != 0 {
        AddToEpollInstance(ptr, ok);
      } else if oldMask != 0 && newMask != 0 && oldMask != newMask {
        assert !d.info.Multiple?;  // A listening socket is never registered again.
        epoll := epoll - {d.fd};
        AddToEpollInstance(ptr, ok);
      }
    }

    method GetDescriptorInfo(fd: Fd, listening: bool) returns (ptr: Ptr)
      requires Owned(Sockets())
      modifies this`socketMap, this`heap, this`next
      ensures Sockets() == GetInfo(old(Sockets()), fd, listening)
      ensures ptr in heap && fd in socketMap && socketMap[fd] == ptr && heap[ptr].fd == fd
    {
      if fd !in socketMap {
        socketMap := socketMap[fd := next];
        heap := heap[next := Desc(fd, NewInfo(listening))];
        next := next + 1;
      }
      ptr := socketMap[fd];
    }

    /** Gives a descriptor its new state and brings epoll in step with it. */
    method Store(ptr: Ptr, info: Info, ok: bool)
      requires ptr in heap && info.Multiple? == heap[ptr].info.Multiple?
      modifies this`heap, this`epoll, this`unacked, this`posted
      ensures Sockets() == ReplaceInfo(old(Sockets()), ptr, info, ok)
    {
      var oldMask := EventMask(heap[ptr].info);
      heap := heap[ptr := heap[ptr].(info := info)];
      UpdateEpollInstance(oldMask, ptr, ok);
    }

    method CloseFd(ptr: Ptr, port: Port, closeSafe: bool, ok: bool)
      requires ptr in heap && InfoInv(heap[ptr].info)
      requires closeSafe && heap[ptr].info.Multiple? ==> RemovePort(heap[ptr].info.listeners, port).ports == map[]
      modifies this
      ensures View() == old(View()).(sockets := CloseAt(old(Sockets()), ptr, port, closeSafe, ok))
    {
      var info := heap[ptr].info;
      RemoveAddsNothing(info, port);
      unacked := unacked - {(ptr, port)};
      Store(ptr, RemovePortOf(info, port), ok);
      if !info.Multiple? || closeSafe {
        ClosedMaskIsZero(info, port);
        assert EventMask(heap[ptr].info) == 0;
        var fd := heap[ptr].fd;
        socketMap := socketMap - {fd};
        heap := heap - {ptr};
        epoll := epoll - {fd};
      }
      posted := posted + multiset{(port, DESTROYED_EVENT)};
    }

    /** The commands on a descriptor, under the assertions that the source makes of them. */
    method HandleCommand(ptr: Ptr, port: Port, cmd: Command, ok: bool)
      requires ptr in heap && InfoInv(heap[ptr].info) && MayCommand(heap[ptr].info, ptr, unacked, port, cmd)
      modifies this
      ensures View() == old(View()).(sockets := OnCommand(old(Sockets()), ptr, port, cmd, ok))
    {
      var info := heap[ptr].info;
      match cmd
      case ShutdownRead => assert !info.Multiple?;
      case ShutdownWrite => assert !info.Multiple?;
      case Close(closeSafe) => CloseFd(ptr, port, closeSafe, ok);
      case ReturnToken(count) =>
        unacked := unacked[(ptr, port) := Unacked(unacked, ptr, port) - count];
        Store(ptr, ReturnTo(info, port, count), ok);
      case SetEventMask(mask) =>
        Store(ptr, SetMaskOf(info, port, mask), ok);
    }

    method HandleInput(i: Input)
      requires Safe(Sockets()) && (i.Socket? ==> Admissible(Sockets(), i.m))
      modifies this
      ensures Safe(Sockets()) && View() == OnInput(old(View()), i)
    {
      match i
      case Socket(m) =>
        MessageTouches(Sockets(), m);
        GetTouches(Sockets(), m.fd, m.listening, PtrOf(Sockets(), m));
        var ptr := GetDescriptorInfo(m.fd, m.listening);
        assert InfoOk(Sockets(), ptr);
        HandleCommand(ptr, m.port, m.cmd, m.accepted);
      case Timer(port, time) =>
        timers := T.Update(timers, port, time);
        armed := Alarm(timers);
      case Shutdown =>
        shutdown := true;
    }

    method HandleInterruptFd(inputs: seq<Input>)
      requires Safe(Sockets()) && AdmissibleAll(Sockets(), Messages(inputs))
      modifies this
      ensures Safe(Sockets()) && View() == OnInputs(old(View()), inputs)
    {
      for i := 0 to |inputs|
        invariant Safe(Sockets()) && AdmissibleAll(Sockets(), Messages(inputs[i..]))
        invariant OnInputs(View(), inputs[i..]) == OnInputs(old(View()), inputs)
      {
        assert inputs[i..][0] == inputs[i] && inputs[i..][1..] == inputs[i + 1..];
        assert inputs[i].Socket? ==> Messages(inputs[i..])[1..] == Messages(inputs[i + 1..]);
        HandleInput(inputs[i]);
      }
    }

    /** An error is broadcast; for anything else the descriptor names the port to post the event to. */
    method Deliver(e: Event)
      requires Safe(Sockets()) && Deliverable(Sockets(), e)
      modifies this
      ensures Safe(Sockets()) && View() == old(View()).(sockets := OnEvent(old(Sockets()), e))
    {
      EventTouches(Sockets(), e);
      var mask := PollEvents(e);
      if mask == ERROR_EVENT {
        BroadcastEvent(e.ptr, mask);
        mask := 0;
      }
      if mask != 0 {
        if Fine(Sockets(), e.ptr) { ReportedHasPort(Sockets(), e); }
        NotifyNextPort(e.ptr, mask);
      }
    }

    /** The source asserts that the port is not 0, which holds of every descriptor that no fault has hit. */
    method NotifyNextPort(ptr: Ptr, mask: int)
      requires ptr in heap && (Fine(Sockets(), ptr) ==> ChosenPort(heap[ptr].info) != 0)
      modifies this
      ensures View() == old(View()).(sockets := DeliverAt(old(Sockets()), ptr, mask))
    {
      var info := heap[ptr].info;
      var port := ChosenPort(info);
      unacked := Told(unacked, ptr, port);
      Store(ptr, NotifyNext(info), true);
      posted := posted + multiset{(port, mask)};
    }

    method HandleReady(r: Ready)
      requires Safe(Sockets()) && (r.SocketReady? ==> Deliverable(Sockets(), r.e))
      modifies this
      ensures Safe(Sockets()) && View() == OnReady(old(View()), r)
    {
      match r
      case SocketReady(e) => Deliver(e);
      case TimerFired =>
        armed := None;
        if timers != [] {
          var port := timers[T.FirstMin(timers)].port;
          rung := rung + [port];
          timers := T.Update(timers, port, -1);
        }
    }

    /** One turn: what is ready first, so that no socket is closed while its events are handled. */
    method HandleEvents(ready: seq<Ready>, inputs: seq<Input>)
      requires Safe(Sockets()) && MayTurn(Sockets(), Turn(Events(ready), Messages(inputs)))
      modifies this
      ensures Safe(Sockets()) && View() == OnInputs(OnReadies(old(View()), ready), inputs)
      ensures var t := Turn(Events(ready), Messages(inputs));
        forall bad :: Sound(old(Sockets()), bad) ==> Sound(Sockets(), bad + TurnFaults(old(Sockets()), t))
    {
      ghost var h, t := Sockets(), Turn(Events(ready), Messages(inputs));
      for i := 0 to |ready|
        invariant Safe(Sockets()) && Batch(Sockets(), Events(ready[i..]))
        invariant OnReadies(View(), ready[i..]) == OnReadies(old(View()), ready)
      {
        ghost var rest := Events(ready[i..]);
        assert ready[i..][0] == ready[i] && ready[i..][1..] == ready[i + 1..];
        if ready[i].SocketReady? {
          BatchStep(Sockets(), rest);
          assert rest[1..] == Events(ready[i + 1..]) && Deliverable(Sockets(), rest[0]);
        }
        HandleReady(ready[i]);
      }
      ReadiesProject(old(View()), ready);
      HandleInterruptFd(inputs);
      InputsProject(OnReadies(old(View()), ready), inputs);
      assert Sockets() == OnTurn(h, t);
      forall bad | Sound(h, bad) ensures Sound(Sockets(), bad + TurnFaults(h, t)) {
        TurnKeepsSound(h, t, bad);
      }
    }
  }
}
