/** What the event loop does for its clients: the files it watches and the messages it posts. */
module EventMeaning {
  import opened Basics
  import opened Ring
  import opened L = Listeners
  import opened D = Descriptors
  import opened EventLoop

  // ----- What the clients asked for -----

  /** The event mask that a port has last asked for on a descriptor it has not closed. */
  type Wishes = map<(Ptr, Port), int>

  function Asked(h: Handler, m: Message, w: Wishes): Wishes {
    match m.cmd
    case SetEventMask(mask) => w[(PtrOf(h, m), m.port) := mask]
    case Close(_) => w - {(PtrOf(h, m), m.port)}
    case _ => w
  }

  function AskedAll(h: Handler, ms: seq<Message>, w: Wishes): Wishes
    decreases |ms|
  {
    if ms == [] then w else AskedAll(OnMessage(h, ms[0]), ms[1..], Asked(h, ms[0], w))
  }

  /** The wishes after a run. */
  function AskedRun(h: Handler, turns: seq<Turn>, w: Wishes): Wishes
    decreases |turns|
  {
    if turns == [] then w
    else AskedRun(OnTurn(h, turns[0]), turns[1..], AskedAll(OnEvents(h, turns[0].events), turns[0].messages, w))
  }

  /** A descriptor remembers what was asked of it. */
  ghost predicate Wished(info: Info, ptr: Ptr, w: Wishes) {
    match info
    case Single(port, _, mask) =>
      if port == 0 then mask == 0 && forall p :: (ptr, p) !in w
      else (forall p :: (ptr, p) in w <==> p == port) && w[(ptr, port)] == mask
    case Multiple(l) =>
      forall p :: if p !in l.ports then (ptr, p) !in w
                  else (ptr, p) in w && w[(ptr, p)] == if l.ports[p].reading then IN_EVENT else 0
  }

  ghost predicate WishedAt(h: Handler, w: Wishes, ptr: Ptr) {
    ptr in h.heap ==> Wished(h.heap[ptr].info, ptr, w)
  }

  ghost predicate AllWished(h: Handler, w: Wishes) {
    (forall ptr :: WishedAt(h, w, ptr)) && forall ptr, p :: (ptr, p) in w ==> ptr < h.next
  }

  /** The two descriptors differ in their tokens only. */
  ghost predicate SameButTokens(i: Info, j: Info) {
    match i
    case Single(port, _, mask) => j.Single? && j.port == port && j.mask == mask
    case Multiple(l) =>
      && j.Multiple? && j.listeners.ports.Keys == l.ports.Keys
      && forall p :: p in l.ports ==> j.listeners.ports[p].reading == l.ports[p].reading
  }

  lemma SameWished(i: Info, j: Info, ptr: Ptr, w: Wishes)
    requires SameButTokens(i, j) && Wished(i, ptr, w)
    ensures Wished(j, ptr, w)
  {}

  lemma TokensOnly(i: Info, port: Port, count: nat)
    requires InfoInv(i)
    ensures SameButTokens(i, NotifyAllOf(i)) && SameButTokens(i, NotifyNext(i))
    ensures MayReturn(i, port) ==> SameButTokens(i, ReturnTo(i, port, count))
  {
    if i.Multiple? && i.listeners.ring != [] { assert i.listeners.ring[0] in i.listeners.ring; }
  }

  /** The wishes after a command on descriptor `ptr`. */
  function AskedOf(w: Wishes, ptr: Ptr, port: Port, cmd: Command): Wishes {
    match cmd
    case SetEventMask(mask) => w[(ptr, port) := mask]
    case Close(_) => w - {(ptr, port)}
    case _ => w
  }

  lemma CommandWished(info: Info, ptr: Ptr, u: Ledger, port: Port, cmd: Command, w: Wishes)
    requires InfoInv(info) && MayCommand(info, ptr, u, port, cmd) && Wished(info, ptr, w)
    requires cmd.Close? ==> info.Multiple?
    ensures Wished(Commanded(info, port, cmd), ptr, AskedOf(w, ptr, port, cmd))
  {
    if cmd.ReturnToken? {
      TokensOnly(info, port, cmd.count);
      SameWished(info, ReturnTo(info, port, cmd.count), ptr, w);
    }
  }

  lemma StoredWished(h: Handler, ptr: Ptr, info: Info, ok: bool, w: Wishes)
    requires ptr in h.heap && InfoInv(info) && Wished(info, ptr, w)
    ensures Wished(Stored(h, ptr, info, ok), ptr, w)
  {
    TokensOnly(info, 0, 0);
    SameWished(info, NotifyAllOf(info), ptr, w);
  }

  /** Whatever becomes of its registration, the descriptor is gone or remembers. */
  lemma OnCommandWished(h: Handler, ptr: Ptr, port: Port, cmd: Command, ok: bool, w: Wishes)
    requires Safe(h) && ptr in h.heap && MayCommand(h.heap[ptr].info, ptr, h.unacked, port, cmd) && WishedAt(h, w, ptr)
    ensures WishedAt(OnCommand(h, ptr, port, cmd, ok), AskedOf(w, ptr, port, cmd), ptr)
  {
    var info := h.heap[ptr].info;
    assert InfoOk(h, ptr);
    if !cmd.ShutdownRead? && !cmd.ShutdownWrite? && (cmd.Close? ==> info.Multiple?) {
      CommandKeepsInfo(info, ptr, h.unacked, port, cmd);
      CommandWished(info, ptr, h.unacked, port, cmd, w);
      StoredWished(h, ptr, Commanded(info, port, cmd), ok, AskedOf(w, ptr, port, cmd));
      BookedTouched(h, ptr, port, cmd);
      ReplaceRewrites(h, ptr, Commanded(info, port, cmd), Booked(h.unacked, ptr, port, cmd), ok);
      if !cmd.Close? { CommandReplaces(h, ptr, port, cmd, ok); }
    }
  }

  /** Wishes about one descriptor do not concern the others. */
  lemma OthersWished(h: Handler, h': Handler, ptr: Ptr, w: Wishes, w': Wishes)
    requires AllWished(h, w) && Touches(h, h', ptr) && WishedAt(h', w', ptr)
    requires forall q, p :: q != ptr ==> ((q, p) in w' <==> (q, p) in w) && ((q, p) in w ==> w'[(q, p)] == w[(q, p)])
    requires ptr < h'.next
    ensures AllWished(h', w')
  {
    forall q ensures WishedAt(h', w', q) {
      if q != ptr && q in h'.heap {
        assert Untouched(h, h', q) && WishedAt(h, w, q);
      }
    }
  }

  lemma GetWished(h: Handler, fd: Fd, listening: bool, w: Wishes)
    requires Safe(h) && AllWished(h, w)
    ensures AllWished(GetInfo(h, fd, listening), w)
  {
    forall q ensures WishedAt(GetInfo(h, fd, listening), w, q) { assert WishedAt(h, w, q); }
  }

  lemma MessageWished(h: Handler, m: Message, w: Wishes)
    requires Safe(h) && Admissible(h, m) && AllWished(h, w)
    ensures AllWished(OnMessage(h, m), Asked(h, m, w))
  {
    var h1, ptr := GetInfo(h, m.fd, m.listening), PtrOf(h, m);
    GetTouches(h, m.fd, m.listening, ptr);
    GetWished(h, m.fd, m.listening, w);
    CommandTouches(h1, ptr, m.port, m.cmd, m.accepted);
    OnCommandWished(h1, ptr, m.port, m.cmd, m.accepted, w);
    OthersWished(h1, OnMessage(h, m), ptr, w, Asked(h, m, w));
  }

  lemma EventWished(h: Handler, e: Event, w: Wishes)
    requires Safe(h) && Deliverable(h, e) && AllWished(h, w)
    ensures AllWished(OnEvent(h, e), w)
  {
    EventTouches(h, e);
    var h', info := OnEvent(h, e), h.heap[e.ptr].info;
    assert InfoOk(h, e.ptr) && WishedAt(h, w, e.ptr);
    TokensOnly(info, 0, 0);
    SameWished(info, NotifyAllOf(info), e.ptr, w);
    SameWished(info, NotifyNext(info), e.ptr, w);
    if PollEvents(e) != 0 && PollEvents(e) != ERROR_EVENT { DeliveredInfo(h, e.ptr, PollEvents(e)); }
    OthersWished(h, h', e.ptr, w, w);
  }

  /** Serving a port never takes a registration. */
  lemma NextAddsNothing(info: Info)
    requires InfoInv(info)
    ensures EventMask(NotifyNext(info)) == 0 || EventMask(NotifyNext(info)) == EventMask(info)
  {}

  lemma DeliveredInfo(h: Handler, ptr: Ptr, mask: int)
    requires Safe(h) && ptr in h.heap
    ensures var h' := DeliverAt(h, ptr, mask); ptr in h'.heap && h'.heap[ptr].info == NotifyNext(h.heap[ptr].info)
  {
    assert InfoOk(h, ptr);
    NextAddsNothing(h.heap[ptr].info);
  }

  lemma {:induction false} EventsWished(h: Handler, events: seq<Event>, w: Wishes)
    requires Safe(h) && Batch(h, events) && AllWished(h, w)
    ensures Safe(OnEvents(h, events)) && AllWished(OnEvents(h, events), w)
    decreases |events|
  {
    if events != [] {
      EventTouches(h, events[0]);
      EventWished(h, events[0], w);
      BatchStep(h, events);
      EventsWished(OnEvent(h, events[0]), events[1..], w);
    }
  }

  lemma {:induction false} MessagesWished(h: Handler, ms: seq<Message>, w: Wishes)
    requires Safe(h) && AdmissibleAll(h, ms) && AllWished(h, w)
    ensures Safe(OnMessages(h, ms)) && AllWished(OnMessages(h, ms), AskedAll(h, ms, w))
    decreases |ms|
  {
    if ms != [] {
      MessageTouches(h, ms[0]);
      MessageWished(h, ms[0], w);
      MessagesWished(OnMessage(h, ms[0]), ms[1..], Asked(h, ms[0], w));
    }
  }

  lemma {:induction false} RunWished(h: Handler, turns: seq<Turn>, w: Wishes)
    requires Safe(h) && MayRun(h, turns) && AllWished(h, w)
    ensures AllWished(After(h, turns), AskedRun(h, turns, w))
    decreases |turns|
  {
    if turns != [] {
      EventsWished(h, turns[0].events, w);
      MessagesWished(OnEvents(h, turns[0].events), turns[0].messages, w);
      RunWished(OnTurn(h, turns[0]), turns[1..],
                AskedAll(OnEvents(h, turns[0].events), turns[0].messages, w));
    }
  }

  /** A file is given a descriptor by the first message about it, which says whether it listens. */
  lemma FirstMessage(h: Handler, m: Message)
    requires Safe(h)
    ensures var h1, ptr := GetInfo(h, m.fd, m.listening), PtrOf(h, m);
      && h1.socketMap == h.socketMap[m.fd := ptr] && ptr in h1.heap && h1.heap[ptr].fd == m.fd
      && (m.fd in h.socketMap ==> h1 == h)
      && (m.fd !in h.socketMap ==>
            && ptr !in h.heap && h1.epoll == h.epoll && h1.heap == h.heap[ptr := h1.heap[ptr]]
            && match h1.heap[ptr].info
               case Single(port, tokens, mask) => !m.listening && port == 0 && tokens == SINGLE_TOKENS && mask == 0
               case Multiple(l) => m.listening && l.ring == [] && l.ports == map[])
  {}

  lemma CloseAtRemoves(h: Handler, ptr: Ptr, port: Port, closeSafe: bool, ok: bool)
    requires Owned(h) && EventLoop.Live(h) && ptr in h.heap
    ensures var h', fd := CloseAt(h, ptr, port, closeSafe, ok), h.heap[ptr].fd;
      if h.heap[ptr].info.Single? || closeSafe then ptr !in h'.heap && fd !in h'.socketMap && fd !in h'.epoll
      else ptr in h'.heap && h'.heap[ptr].info == RemovePortOf(h.heap[ptr].info, port)
  {
    var info := h.heap[ptr].info;
    RemoveAddsNothing(info, port);
    BookedTouched(h, ptr, port, Close(closeSafe));
    ReplaceRewrites(h, ptr, RemovePortOf(info, port), h.unacked - {(ptr, port)}, ok);
  }

  /**
   Closing takes the port off, and the descriptor with its file and registration if it was the only
   port or the registry says that nobody else listens.
   */
  lemma CloseRemoves(h: Handler, m: Message)
    requires Safe(h) && Admissible(h, m) && m.cmd.Close?
    ensures var h1, h', ptr := GetInfo(h, m.fd, m.listening), OnMessage(h, m), PtrOf(h, m);
      if h1.heap[ptr].info.Single? || m.cmd.closeSafe
      then ptr !in h'.heap && m.fd !in h'.socketMap && m.fd !in h'.epoll
      else ptr in h'.heap && h'.heap[ptr].info.Multiple? && m.port !in h'.heap[ptr].info.listeners.ports
  {
    var h1, ptr := GetInfo(h, m.fd, m.listening), PtrOf(h, m);
    GetTouches(h, m.fd, m.listening, ptr);
    FirstMessage(h, m);
    CloseAtRemoves(h1, ptr, m.port, m.cmd.closeSafe, m.accepted);
  }

  // ----- What the kernel watches -----

  /** Port `p` waits for `event` on descriptor `ptr`, and may be sent a message. */
  ghost predicate WaitsFor(h: Handler, w: Wishes, ptr: Ptr, p: Port, event: int)
    requires ptr in h.heap
  {
    && (ptr, p) in w && (w[(ptr, p)] == event || w[(ptr, p)] == IN_EVENT + OUT_EVENT)
    && Unacked(h.unacked, ptr, p) < if h.heap[ptr].info.Single? then SINGLE_TOKENS else TOKENS
  }

  ghost predicate SomebodyWaits(h: Handler, w: Wishes, ptr: Ptr, event: int)
    requires ptr in h.heap
  {
    exists p :: WaitsFor(h, w, ptr, p, event)
  }

  /** The kernel watches the file of a descriptor for what its clients wait for, and not at all for nothing. */
  ghost predicate Watched(h: Handler, w: Wishes, ptr: Ptr) {
    ptr in h.heap ==>
      var fd := h.heap[ptr].fd;
      && (fd in h.epoll <==> SomebodyWaits(h, w, ptr, IN_EVENT) || SomebodyWaits(h, w, ptr, OUT_EVENT))
      && (fd in h.epoll ==>
            && (h.epoll[fd].interest.input <==> SomebodyWaits(h, w, ptr, IN_EVENT))
            && (h.epoll[fd].interest.output <==> SomebodyWaits(h, w, ptr, OUT_EVENT)))
  }

  lemma SingleWatched(h: Handler, w: Wishes, ptr: Ptr)
    requires Safe(h) && ptr in h.heap && h.heap[ptr].info.Single? && Fine(h, ptr) && Wished(h.heap[ptr].info, ptr, w)
    ensures Watched(h, w, ptr)
  {
    assert InfoOk(h, ptr);
    var Single(port, tokens, mask) := h.heap[ptr].info;
    if EventMask(h.heap[ptr].info) != 0 {
      assert WaitsFor(h, w, ptr, port, IN_EVENT) || WaitsFor(h, w, ptr, port, OUT_EVENT);
    }
    forall event | event == IN_EVENT || event == OUT_EVENT
      ensures SomebodyWaits(h, w, ptr, event) <==> port != 0 && WaitsFor(h, w, ptr, port, event)
    {}
  }

  lemma ListenersWatched(h: Handler, w: Wishes, ptr: Ptr)
    requires Safe(h) && ptr in h.heap && h.heap[ptr].info.Multiple? && Fine(h, ptr) && Wished(h.heap[ptr].info, ptr, w)
    ensures Watched(h, w, ptr)
  {
    assert InfoOk(h, ptr);
    var l := h.heap[ptr].info.listeners;
    forall p ensures WaitsFor(h, w, ptr, p, IN_EVENT) <==> ReadyPort(l.ports, p) {}
    forall p ensures !WaitsFor(h, w, ptr, p, OUT_EVENT) {}
    if l.ring != [] { assert l.ring[0] in l.ring && WaitsFor(h, w, ptr, l.ring[0], IN_EVENT); }
  }

  /**
   In every reachable state the kernel watches the file of a descriptor that no fault has hit exactly for
   what its clients have last asked for, counting only clients that have not used up their tokens.
   */
  lemma WatchedAsAsked(turns: seq<Turn>, ptr: Ptr)
    requires MayRun(INITIAL, turns) && ptr !in Faults(INITIAL, turns)
    ensures Watched(After(INITIAL, turns), AskedRun(INITIAL, turns, map[]), ptr)
  {
    var h, w := After(INITIAL, turns), AskedRun(INITIAL, turns, map[]);
    RunKeepsSound(INITIAL, turns, {});
    RunWished(INITIAL, turns, map[]);
    assert {} + Faults(INITIAL, turns) == Faults(INITIAL, turns);
    if ptr in h.heap {
      assert Fine(h, ptr) && WishedAt(h, w, ptr);
      if h.heap[ptr].info.Single? { SingleWatched(h, w, ptr); } else { ListenersWatched(h, w, ptr); }
    }
  }

  // ----- What is posted -----

  /** The bits of a posted event. */
  ghost predicate Bits(mask: int, input: bool, output: bool, error: bool, close: bool) {
    && 0 <= mask < 16 && (mask % 2 == 1 <==> input) && (mask / 2 % 2 == 1 <==> output)
    && (mask / 4 % 2 == 1 <==> error) && (mask / 8 % 2 == 1 <==> close)
  }

  /** A broadcast: one message for everybody who listens. */
  ghost function ToAll(info: Info, mask: int): multiset<(Port, int)> {
    multiset(set p | p in Audience(info) :: (p, mask))
  }

  /** Who is told next: the only port, or the one at the head of the ring. */
  ghost predicate IsNext(info: Info, port: Port) {
    match info
    case Single(p, _, _) => port == p
    case Multiple(l) => if l.ring == [] then port == 0 else port == l.ring[0]
  }

  /**
   What every event posts. An error with input goes to everybody as an error and one without input to
   nobody. Anything else goes to the next port alone, with a bit for each condition.
   */
  lemma EventPosts(h: Handler, e: Event) returns (port: Port, mask: int)
    requires Safe(h) && Deliverable(h, e)
    ensures IsNext(h.heap[e.ptr].info, port)
    ensures Bits(mask, !e.error && e.input, !e.error && e.output, e.error && e.input, !e.error && e.hangup)
    ensures OnEvent(h, e).posted == h.posted +
      if mask == 0 then multiset{} else if e.error then ToAll(h.heap[e.ptr].info, mask) else multiset{(port, mask)}
  {
    port, mask := ChosenPort(h.heap[e.ptr].info), PollEvents(e);
    assert InfoOk(h, e.ptr);
    NextAddsNothing(h.heap[e.ptr].info);
  }

  /** What the replacement of a state posts: a close event to everybody when its registration is refused. */
  lemma ReplacePosts(h: Handler, ptr: Ptr, info: Info, ok: bool)
    requires ptr in h.heap
    ensures ReplaceInfo(h, ptr, info, ok).posted == h.posted +
      if Refused(h, ptr, info, ok) then ToAll(info, CLOSE_EVENT) else multiset{}
  {}

  /** A command needs a registration and the kernel refuses it, or has the file already. */
  ghost predicate Refused(h: Handler, ptr: Ptr, info: Info, ok: bool)
    requires ptr in h.heap
  {
    Adds(h, ptr, info) && !(ok && (MaskAt(h, ptr) != 0 || h.heap[ptr].fd !in h.epoll))
  }

  lemma ClosePosts(h: Handler, ptr: Ptr, port: Port, closeSafe: bool, ok: bool)
    requires ptr in h.heap
    ensures CloseAt(h, ptr, port, closeSafe, ok).posted == h.posted + multiset{(port, DESTROYED_EVENT)}
  {
    RemoveAddsNothing(h.heap[ptr].info, port);
    ReplacePosts(h.(unacked := h.unacked - {(ptr, port)}), ptr, RemovePortOf(h.heap[ptr].info, port), ok);
  }

  lemma CommandPosts(h: Handler, ptr: Ptr, port: Port, cmd: Command, ok: bool)
    requires ptr in h.heap && MayCommand(h.heap[ptr].info, ptr, h.unacked, port, cmd)
    ensures var info := Commanded(h.heap[ptr].info, port, cmd);
      OnCommand(h, ptr, port, cmd, ok).posted == h.posted +
        if cmd.Close? then multiset{(port, DESTROYED_EVENT)}
        else if Refused(h, ptr, info, ok) then ToAll(info, CLOSE_EVENT)
        else multiset{}
  {
    match cmd
    case Close(closeSafe) => ClosePosts(h, ptr, port, closeSafe, ok);
    case ShutdownRead =>
    case ShutdownWrite =>
    case _ =>
      CommandReplaces(h, ptr, port, cmd, ok);
      var info := Commanded(h.heap[ptr].info, port, cmd);
      ReplacePosts(h.(unacked := Booked(h.unacked, ptr, port, cmd)), ptr, info, ok);
  }

  /**
   What every message posts. Closing confirms to the port that asked. A command whose registration is
   refused tells everybody that the file is closed. Nothing else posts anything.
   */
  lemma MessagePosts(h: Handler, m: Message)
    requires Safe(h) && Admissible(h, m)
    ensures var h1, ptr := GetInfo(h, m.fd, m.listening), PtrOf(h, m);
      var info := Commanded(h1.heap[ptr].info, m.port, m.cmd);
      OnMessage(h, m).posted == h.posted +
        if m.cmd.Close? then multiset{(m.port, DESTROYED_EVENT)}
        else if Refused(h1, ptr, info, m.accepted) then ToAll(info, CLOSE_EVENT)
        else multiset{}
  {
    CommandPosts(GetInfo(h, m.fd, m.listening), PtrOf(h, m), m.port, m.cmd, m.accepted);
  }
}
