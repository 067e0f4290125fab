/**
 The Linux event loop as a state machine: commands from isolates and events from epoll change the
 descriptors, and the epoll registrations have to stay in step with their event masks, whatever the
 kernel refuses and whatever errors it reports.
 */
module EventLoop {
  import opened Basics
  import opened Ring
  import opened L = Listeners
  import opened D = Descriptors

  type Fd = int
  /** Identity of an allocated descriptor object; identities are never used again. */
  type Ptr = nat

  datatype Interest = Interest(input: bool, output: bool)
  datatype Registration = Registration(ptr: Ptr, interest: Interest, edge: bool)
  datatype Desc = Desc(fd: Fd, info: Info)

  /**
   `heap` holds the live descriptor objects, `epoll` the kernel's registrations, `unacked` how many
   messages a client has received on a descriptor and not yet acknowledged.
   */
  datatype Handler = Handler(
    socketMap: map<Fd, Ptr>,
    heap: map<Ptr, Desc>,
    next: Ptr,
    epoll: map<Fd, Registration>,
    unacked: Ledger,
    posted: multiset<(Port, int)>)

  const INITIAL := Handler(map[], map[], 0, map[], map[], multiset{})

  type Ledger = map<(Ptr, Port), int>

  function Unacked(u: Ledger, ptr: Ptr, port: Port): int {
    if (ptr, port) in u then u[(ptr, port)] else 0
  }

  /** One message in a client's books. */
  function Told(u: Ledger, ptr: Ptr, port: Port): Ledger {
    u[(ptr, port) := Unacked(u, ptr, port) + 1]
  }

  /** Messages that a client acknowledges. */
  function Acked(u: Ledger, ptr: Ptr, port: Port, count: nat): Ledger {
    u[(ptr, port) := Unacked(u, ptr, port) - count]
  }

  /** The messages of a broadcast in the clients' books. */
  function Sent(info: Info, ptr: Ptr, u: Ledger): Ledger {
    u + map p | p in Audience(info) :: (ptr, p) := Unacked(u, ptr, p) + 1
  }

  /** DescriptorInfo::GetPollEvents. */
  function PollInterest(mask: int): Interest {
    Interest(mask % 2 == 1, mask / 2 % 2 == 1)
  }

  function MaskAt(h: Handler, ptr: Ptr): int
    requires ptr in h.heap
  {
    EventMask(h.heap[ptr].info)
  }

  // ----- The steps of the source -----

  function SetInfo(h: Handler, ptr: Ptr, info: Info): Handler
    requires ptr in h.heap
  {
    h.(heap := h.heap[ptr := h.heap[ptr].(info := info)])
  }

  function GetInfo(h: Handler, fd: Fd, listening: bool): Handler {
    if fd in h.socketMap then h
    else h.(socketMap := h.socketMap[fd := h.next], heap := h.heap[h.next := Desc(fd, NewInfo(listening))],
            next := h.next + 1)
  }

  function NotifyAllAt(h: Handler, ptr: Ptr, event: int): Handler
    requires ptr in h.heap
  {
    var info := h.heap[ptr].info;
    SetInfo(h, ptr, NotifyAllOf(info)).(
      unacked := Sent(info, ptr, h.unacked), posted := h.posted + multiset(set p | p in Audience(info) :: (p, event)))
  }

  /**
   AddToEpollInstance; `ok` is whether the kernel is willing to watch the file. It never registers a
   file twice. When it refuses, the close event is broadcast.
   */
  function AddToEpoll(h: Handler, ptr: Ptr, ok: bool): Handler
    requires ptr in h.heap
  {
    var d := h.heap[ptr];
    if ok && d.fd !in h.epoll
    then h.(epoll := h.epoll[d.fd := Registration(ptr, PollInterest(EventMask(d.info)), !d.info.Multiple?)])
    else NotifyAllAt(h, ptr, CLOSE_EVENT)
  }

  function RemoveFromEpoll(h: Handler, ptr: Ptr): Handler
    requires ptr in h.heap
  {
    h.(epoll := h.epoll - {h.heap[ptr].fd})
  }

  function UpdateEpoll(h: Handler, oldMask: int, ptr: Ptr, ok: bool): Handler
    requires ptr in h.heap
  {
    var newMask := MaskAt(h, ptr);
    if oldMask != 0 && newMask == 0 then RemoveFromEpoll(h, ptr)
    else if oldMask == 0 && newMask != 0 then AddToEpoll(h, ptr, ok)
    else if oldMask != 0 && newMask != 0 && oldMask != newMask then AddToEpoll(RemoveFromEpoll(h, ptr), ptr, ok)
    else h
  }

  datatype Command =
    | ShutdownRead
    | ShutdownWrite
    | Close(closeSafe: bool)
    | ReturnToken(count: nat)
    | SetEventMask(mask: int)

  /** `accepted` is whether the kernel accepts the registration that the message may lead to. */
  datatype Message = Message(fd: Fd, port: Port, listening: bool, cmd: Command, accepted: bool)

  function ReplaceInfo(h: Handler, ptr: Ptr, info: Info, ok: bool): Handler
    requires ptr in h.heap
  {
    UpdateEpoll(SetInfo(h, ptr, info), MaskAt(h, ptr), ptr, ok)
  }

  /** The descriptor object is deleted and its file closed, which also ends the kernel's registration. */
  function Delete(h: Handler, ptr: Ptr): Handler
    requires ptr in h.heap
  {
    var fd := h.heap[ptr].fd;
    h.(socketMap := h.socketMap - {fd}, heap := h.heap - {ptr}, epoll := h.epoll - {fd})
  }

  function Post(h: Handler, port: Port, event: int): Handler {
    h.(posted := h.posted + multiset{(port, event)})
  }

  /** The kCloseCommand branch: drop the port, and the whole descriptor unless others still listen. */
  function CloseAt(h: Handler, ptr: Ptr, port: Port, closeSafe: bool, ok: bool): Handler
    requires ptr in h.heap
  {
    var info := h.heap[ptr].info;
    var h1 := ReplaceInfo(h.(unacked := h.unacked - {(ptr, port)}), ptr, RemovePortOf(info, port), ok);
    Post(if !info.Multiple? || closeSafe then Delete(h1, ptr) else h1, port, DESTROYED_EVENT)
  }

  function ReturnAt(h: Handler, ptr: Ptr, port: Port, count: nat, ok: bool): Handler
    requires ptr in h.heap && MayReturn(h.heap[ptr].info, port)
  {
    ReplaceInfo(h.(unacked := Acked(h.unacked, ptr, port, count)), ptr, ReturnTo(h.heap[ptr].info, port, count), ok)
  }

  function SetMaskAt(h: Handler, ptr: Ptr, port: Port, mask: int, ok: bool): Handler
    requires ptr in h.heap
  {
    ReplaceInfo(h, ptr, SetMaskOf(h.heap[ptr].info, port, mask), ok)
  }

  /** One command on a descriptor; the source asserts that returned tokens belong to a registered port. */
  function OnCommand(h: Handler, ptr: Ptr, port: Port, cmd: Command, ok: bool): Handler
    requires ptr in h.heap
  {
    match cmd
    case ShutdownRead => h
    case ShutdownWrite => h
    case Close(closeSafe) => CloseAt(h, ptr, port, closeSafe, ok)
    case ReturnToken(count) => if MayReturn(h.heap[ptr].info, port) then ReturnAt(h, ptr, port, count, ok) else h
    case SetEventMask(mask) => SetMaskAt(h, ptr, port, mask, ok)
  }

  /** The descriptor that a message is about. */
  function PtrOf(h: Handler, m: Message): Ptr {
    if m.fd in h.socketMap then h.socketMap[m.fd] else h.next
  }

  /** One socket message of HandleInterruptFd. */
  function OnMessage(h: Handler, m: Message): Handler {
    var h1, ptr := GetInfo(h, m.fd, m.listening), PtrOf(h, m);
    if ptr in h1.heap then OnCommand(h1, ptr, m.port, m.cmd, m.accepted) else h1
  }

  predicate MayReturn(i: Info, port: Port) {
    match i
    case Single(p, _, _) => p == port
    case Multiple(l) => port in l.ports
  }

  /** An event as epoll_wait reports it: the registered pointer and the ready conditions. */
  datatype Event = Event(ptr: Ptr, input: bool, output: bool, hangup: bool, error: bool)

  /** EventHandlerImplementation::GetPollEvents. */
  function PollEvents(e: Event): int {
    if e.error then (if e.input then ERROR_EVENT else 0)
    else (if e.input then IN_EVENT else 0) + (if e.output then OUT_EVENT else 0) + (if e.hangup then CLOSE_EVENT else 0)
  }

  /** The next port of the descriptor is asked for and the event posted to it. */
  function DeliverAt(h: Handler, ptr: Ptr, mask: int): Handler
    requires ptr in h.heap
  {
    var info := h.heap[ptr].info;
    var port := ChosenPort(info);
    Post(ReplaceInfo(h.(unacked := Told(h.unacked, ptr, port)), ptr, NotifyNext(info), true), port, mask)
  }

  /** One socket event of HandleEvents; the pointer is dereferenced without a check. */
  function OnEvent(h: Handler, e: Event): Handler {
    if e.ptr !in h.heap || PollEvents(e) == 0 then h
    else if PollEvents(e) == ERROR_EVENT then NotifyAllAt(h, e.ptr, ERROR_EVENT)
    else DeliverAt(h, e.ptr, PollEvents(e))
  }

  // ----- What the source asserts of its callers, and what the kernel promises -----

  /** The assertions on a command, a client that returns only what it received, and a registry that
      reports CloseSafe only when no port is left. */
  predicate MayCommand(info: Info, ptr: Ptr, u: Ledger, port: Port, cmd: Command) {
    && port != 0
    && match cmd
       case ShutdownRead => info.Single?
       case ShutdownWrite => info.Single?
       case Close(closeSafe) =>
         if info.Single? then info.port == 0 || info.port == port
         else closeSafe ==> L.RemovePort(info.listeners, port).ports == map[]
       case ReturnToken(count) => MayReturn(info, port) && count <= Unacked(u, ptr, port)
       case SetEventMask(mask) =>
         if info.Single? then 0 <= mask < 4 && (info.port == 0 || info.port == port) else 0 <= mask <= IN_EVENT
  }

  predicate Admissible(h: Handler, m: Message) {
    var h1, ptr := GetInfo(h, m.fd, m.listening), PtrOf(h, m);
    ptr in h1.heap && MayCommand(h1.heap[ptr].info, ptr, h1.unacked, m.port, m.cmd)
  }

  /** The kernel reports only registered descriptors: what was asked for, and errors and hang-ups. */
  predicate Deliverable(h: Handler, e: Event) {
    && e.ptr in h.heap
    && h.heap[e.ptr].fd in h.epoll
    && var r := h.epoll[h.heap[e.ptr].fd];
       r.ptr == e.ptr && (e.input ==> r.interest.input) && (e.output ==> r.interest.output)
  }

  // ----- What holds in every state -----

  /** `socketMap` and `heap` are inverse to each other: nothing dangles and nothing leaks. */
  ghost predicate Owned(h: Handler) {
    && (forall fd :: fd in h.socketMap ==> h.socketMap[fd] in h.heap && h.heap[h.socketMap[fd]].fd == fd)
    && (forall ptr :: ptr in h.heap ==> ptr < h.next && h.heap[ptr].fd in h.socketMap &&
                                        h.socketMap[h.heap[ptr].fd] == ptr)
    && (forall ptr, port :: (ptr, port) in h.unacked ==> ptr < h.next)
  }

  /** Every pointer that the kernel can hand back is that of the live descriptor of the file. */
  ghost predicate Live(h: Handler) {
    forall fd :: fd in h.epoll ==> fd in h.socketMap && h.epoll[fd].ptr == h.socketMap[fd]
  }

  ghost predicate InfoOk(h: Handler, ptr: Ptr) {
    ptr in h.heap ==> InfoInv(h.heap[ptr].info)
  }

  ghost predicate Safe(h: Handler) {
    Owned(h) && Live(h) && forall ptr :: InfoOk(h, ptr)
  }

  // ----- What holds of a descriptor that no fault has hit -----

  /** A descriptor is registered exactly when its mask is nonzero, with that mask as interest. */
  ghost predicate InStep(h: Handler, ptr: Ptr) {
    ptr in h.heap ==>
    var d := h.heap[ptr];
    if EventMask(d.info) == 0 then d.fd !in h.epoll
    else d.fd in h.epoll && h.epoll[d.fd] == Registration(ptr, PollInterest(EventMask(d.info)), d.info.Single?)
  }

  /** Every token missing from a descriptor is one message its client has yet to acknowledge. */
  ghost predicate Conserved(info: Info, ptr: Ptr, u: Ledger) {
    match info
    case Single(port, tokens, _) =>
      && tokens == SINGLE_TOKENS - (if port == 0 then 0 else Unacked(u, ptr, port))
      && 0 <= tokens <= SINGLE_TOKENS
      && (port == 0 ==> forall p :: Unacked(u, ptr, p) == 0)
    case Multiple(l) =>
      forall p :: if p in l.ports
        then l.ports[p].tokens == TOKENS - Unacked(u, ptr, p) && 0 <= l.ports[p].tokens <= TOKENS
                  else Unacked(u, ptr, p) == 0
  }

  ghost predicate Fine(h: Handler, ptr: Ptr) {
    ptr in h.heap ==> InStep(h, ptr) && Conserved(h.heap[ptr].info, ptr, h.unacked)
  }

  /** Every descriptor is fine except perhaps those in `bad`. */
  ghost predicate Sound(h: Handler, bad: set<Ptr>) {
    Safe(h) && forall ptr :: ptr in bad || Fine(h, ptr)
  }

  ghost predicate Consistent(h: Handler) {
    Sound(h, {})
  }

  // ----- A step touches one descriptor -----

  /** Descriptor `q`, its registration and its clients' books are the same in both states. */
  ghost predicate Untouched(h: Handler, h': Handler, q: Ptr) {
    q in h.heap ==>
    var fd := h.heap[q].fd;
    && q in h'.heap && h'.heap[q] == h.heap[q]
    && (fd in h'.epoll <==> fd in h.epoll) && (fd in h.epoll ==> h'.epoll[fd] == h.epoll[fd])
    && forall p :: Unacked(h'.unacked, q, p) == Unacked(h.unacked, q, p)
  }

  lemma UntouchedFine(h: Handler, h': Handler, q: Ptr)
    requires q in h.heap && Untouched(h, h', q) && Fine(h, q)
    ensures Fine(h', q)
  {
    if h.heap[q].info.Multiple? {
      assert forall p :: Unacked(h'.unacked, q, p) == Unacked(h.unacked, q, p);
    }
  }

  /** The step is safe and leaves every descriptor but `ptr` alone. */
  ghost predicate Touches(h: Handler, h': Handler, ptr: Ptr) {
    && Safe(h') && h.next <= h'.next
    && (forall q :: q == ptr || Untouched(h, h', q))
    && (forall q :: q in h'.heap ==> q in h.heap || q == ptr)
  }

  lemma TouchesSound(h: Handler, h': Handler, ptr: Ptr, bad: set<Ptr>)
    requires Sound(h, bad) && Touches(h, h', ptr)
    ensures Sound(h', bad + {ptr}) && (Fine(h', ptr) ==> Sound(h', bad))
  {
    forall q | q !in bad && q != ptr ensures Fine(h', q) {
      if q in h'.heap {
        assert Untouched(h, h', q) && Fine(h, q);
        UntouchedFine(h, h', q);
      }
    }
  }

  lemma BreaksAtMost(h: Handler, h': Handler, ptr: Ptr, bad: set<Ptr>, fault: set<Ptr>)
    requires Sound(h, bad) && Touches(h, h', ptr) && (fault == {} || fault == {ptr})
    requires Fine(h, ptr) && fault == {} ==> Fine(h', ptr)
    ensures Sound(h', bad + fault)
  {
    TouchesSound(h, h', ptr, bad);
    if fault == {} {
      assert bad + fault == bad;
      if ptr in bad { assert bad + {ptr} == bad; } else { assert Fine(h, ptr); }
    }
  }

  lemma TouchesTrans(h: Handler, h1: Handler, h2: Handler, ptr: Ptr)
    requires Touches(h, h1, ptr) && Touches(h1, h2, ptr)
    ensures Touches(h, h2, ptr)
  {
    forall q ensures q == ptr || Untouched(h, h2, q) {
      if q != ptr { assert Untouched(h, h1, q) && Untouched(h1, h2, q); }
    }
  }

  ghost predicate LedgerTouched(h: Handler, u: Ledger, ptr: Ptr) {
    && (forall q, p :: q != ptr ==> Unacked(u, q, p) == Unacked(h.unacked, q, p))
    && (forall q, p :: (q, p) in u ==> q < h.next)
  }

  lemma ToldTouched(h: Handler, ptr: Ptr, port: Port)
    requires Owned(h) && ptr in h.heap
    ensures LedgerTouched(h, Told(h.unacked, ptr, port), ptr)
  {}

  /** A descriptor gets a new state, and epoll at most a registration of it or none. */
  ghost predicate Rewritten(h: Handler, h': Handler, ptr: Ptr, info: Info)
    requires ptr in h.heap
  {
    var fd := h.heap[ptr].fd;
    && h'.socketMap == h.socketMap && h'.next == h.next && h'.heap == h.heap[ptr := Desc(fd, info)]
    && LedgerTouched(h, h'.unacked, ptr)
    && (forall f :: f != fd ==> (f in h'.epoll <==> f in h.epoll) && (f in h.epoll ==> h'.epoll[f] == h.epoll[f]))
    && (fd in h'.epoll ==> h'.epoll[fd].ptr == ptr)
  }

  lemma RewrittenTouches(h: Handler, h': Handler, ptr: Ptr, info: Info)
    requires Safe(h) && ptr in h.heap && Rewritten(h, h', ptr, info) && InfoInv(info)
    ensures Touches(h, h', ptr)
  {
    forall q ensures q == ptr || Untouched(h, h', q) {
      if q in h.heap && q != ptr { assert h.heap[q].fd != h.heap[ptr].fd; }
    }
    forall q ensures InfoOk(h', q) { assert InfoOk(h, q); }
  }

  lemma BroadcastRewrites(h: Handler, ptr: Ptr, event: int)
    requires Owned(h) && Live(h) && ptr in h.heap
    ensures Rewritten(h, NotifyAllAt(h, ptr, event), ptr, NotifyAllOf(h.heap[ptr].info))
  {}

  lemma BroadcastKeepsInfo(i: Info)
    requires InfoInv(i)
    ensures InfoInv(NotifyAllOf(i))
  {
    if i.Multiple? { StepKeepsInv(i.listeners, Broadcast, false); }
  }

  lemma BroadcastTouches(h: Handler, ptr: Ptr, event: int)
    requires Safe(h) && ptr in h.heap
    ensures Touches(h, NotifyAllAt(h, ptr, event), ptr)
  {
    assert InfoOk(h, ptr);
    BroadcastRewrites(h, ptr, event);
    BroadcastKeepsInfo(h.heap[ptr].info);
    RewrittenTouches(h, NotifyAllAt(h, ptr, event), ptr, NotifyAllOf(h.heap[ptr].info));
  }

  /** The state of a descriptor after its mask was brought to epoll: a refused registration is broadcast. */
  function Stored(h: Handler, ptr: Ptr, info: Info, ok: bool): Info
    requires ptr in h.heap
  {
    if Adds(h, ptr, info) && !(ok && (MaskAt(h, ptr) != 0 || h.heap[ptr].fd !in h.epoll))
    then NotifyAllOf(info)
    else info
  }

  /** Bringing `info` to epoll takes a registration. */
  predicate Adds(h: Handler, ptr: Ptr, info: Info)
    requires ptr in h.heap
  {
    EventMask(info) != 0 && EventMask(info) != MaskAt(h, ptr)
  }

  lemma ReplaceRewrites(h: Handler, ptr: Ptr, info: Info, u: Ledger, ok: bool)
    requires Owned(h) && Live(h) && ptr in h.heap && LedgerTouched(h, u, ptr)
    ensures Rewritten(h, ReplaceInfo(h.(unacked := u), ptr, info, ok), ptr, Stored(h, ptr, info, ok))
  {
    var h1 := SetInfo(h.(unacked := u), ptr, info);
    var h2 := if MaskAt(h, ptr) != 0 && MaskAt(h, ptr) != EventMask(info) then RemoveFromEpoll(h1, ptr) else h1;
    assert Rewritten(h, h2, ptr, info);
    if Adds(h, ptr, info) { AddRewrites(h, h2, ptr, info, ok); }
  }

  lemma AddRewrites(h: Handler, h2: Handler, ptr: Ptr, info: Info, ok: bool)
    requires ptr in h.heap && Rewritten(h, h2, ptr, info) && forall q, p :: (q, p) in h.unacked ==> q < h.next
    requires ptr < h.next
    ensures Rewritten(h, AddToEpoll(h2, ptr, ok), ptr,
                      if ok && h.heap[ptr].fd !in h2.epoll then info else NotifyAllOf(info))
  {}

  lemma ReplaceTouches(h: Handler, ptr: Ptr, info: Info, u: Ledger, ok: bool)
    requires Safe(h) && ptr in h.heap && LedgerTouched(h, u, ptr) && InfoInv(info)
    ensures Touches(h, ReplaceInfo(h.(unacked := u), ptr, info, ok), ptr)
  {
    ReplaceRewrites(h, ptr, info, u, ok);
    BroadcastKeepsInfo(info);
    RewrittenTouches(h, ReplaceInfo(h.(unacked := u), ptr, info, ok), ptr, Stored(h, ptr, info, ok));
  }

  // ----- When the touched descriptor stays fine -----

  /** Nothing was to be registered, or the kernel agreed: the descriptor is in step with its new state. */
  lemma ReplaceFine(h: Handler, ptr: Ptr, info: Info, u: Ledger, ok: bool)
    requires ptr in h.heap && InStep(h, ptr) && info.Single? == h.heap[ptr].info.Single? && Conserved(info, ptr, u)
    requires Adds(h, ptr, info) ==> ok
    ensures Fine(ReplaceInfo(h.(unacked := u), ptr, info, ok), ptr)
  {}

  /** The broadcast after a refusal: who had a token spent it, and nobody may be ready after it. */
  ghost predicate Drained(i: Info) {
    !HasSpareToken(i) && AllCanPay(i)
  }

  lemma BroadcastConserves(info: Info, ptr: Ptr, u: Ledger)
    requires InfoInv(info) && Conserved(info, ptr, u) && EventMask(info) != 0
    ensures Conserved(NotifyAllOf(info), ptr, Sent(info, ptr, u)) <==> AllCanPay(info)
  {
    if info.Multiple? {
      var after := NotifyAllOf(info).listeners;
      forall p | p in info.listeners.ports
        ensures after.ports[p].tokens == info.listeners.ports[p].tokens - 1
        ensures Unacked(Sent(info, ptr, u), ptr, p) == Unacked(u, ptr, p) + 1
      {}
      forall p | p !in info.listeners.ports ensures Unacked(Sent(info, ptr, u), ptr, p) == Unacked(u, ptr, p) {}
    }
  }

  /**
   When the kernel refuses the registration that a new mask needs, the close event is broadcast and
   the descriptor stays unregistered: in step exactly when that took the last token.
   */
  lemma RefusedAddInStep(h: Handler, ptr: Ptr, info: Info, u: Ledger)
    requires ptr in h.heap && InStep(h, ptr) && InfoInv(info) && Adds(h, ptr, info)
    ensures InStep(ReplaceInfo(h.(unacked := u), ptr, info, false), ptr) <==> !HasSpareToken(info)
  {
    BroadcastMask(info);
  }

  /** And the descriptor is fine altogether exactly when everybody could pay for it, too. */
  lemma RefusedAddFine(h: Handler, ptr: Ptr, info: Info, u: Ledger)
    requires ptr in h.heap && InStep(h, ptr) && InfoInv(info) && Conserved(info, ptr, u) && Adds(h, ptr, info)
    ensures Fine(ReplaceInfo(h.(unacked := u), ptr, info, false), ptr) <==> Drained(info)
  {
    RefusedAddInStep(h, ptr, info, u);
    BroadcastConserves(info, ptr, u);
    var h' := ReplaceInfo(h.(unacked := u), ptr, info, false);
    assert h'.heap[ptr].info == NotifyAllOf(info) && h'.unacked == Sent(info, ptr, u);
  }

  // ----- Commands -----

  /** The state that a command gives to a descriptor, before epoll is told. */
  function Commanded(info: Info, port: Port, cmd: Command): Info {
    match cmd
    case Close(_) => RemovePortOf(info, port)
    case ReturnToken(count) => if MayReturn(info, port) then ReturnTo(info, port, count) else info
    case SetEventMask(mask) => SetMaskOf(info, port, mask)
    case _ => info
  }

  /** The clients' books after a command. */
  function Booked(u: Ledger, ptr: Ptr, port: Port, cmd: Command): Ledger {
    match cmd
    case Close(_) => u - {(ptr, port)}
    case ReturnToken(count) => Acked(u, ptr, port, count)
    case _ => u
  }

  lemma BookedTouched(h: Handler, ptr: Ptr, port: Port, cmd: Command)
    requires Owned(h) && ptr in h.heap
    ensures LedgerTouched(h, Booked(h.unacked, ptr, port, cmd), ptr)
  {}

  /** Tokens and masks: the command is a new state, brought to epoll. */
  lemma CommandReplaces(h: Handler, ptr: Ptr, port: Port, cmd: Command, ok: bool)
    requires ptr in h.heap && MayCommand(h.heap[ptr].info, ptr, h.unacked, port, cmd)
    requires cmd.ReturnToken? || cmd.SetEventMask?
    ensures OnCommand(h, ptr, port, cmd, ok) ==
      ReplaceInfo(h.(unacked := Booked(h.unacked, ptr, port, cmd)), ptr, Commanded(h.heap[ptr].info, port, cmd), ok)
  {
    if cmd.SetEventMask? { assert h.(unacked := h.unacked) == h; }
  }

  lemma CommandKeepsInfo(info: Info, ptr: Ptr, u: Ledger, port: Port, cmd: Command)
    requires InfoInv(info) && MayCommand(info, ptr, u, port, cmd)
    ensures InfoInv(Commanded(info, port, cmd)) && Commanded(info, port, cmd).Single? == info.Single?
  {
    if info.Multiple? {
      match cmd
      case Close(_) => StepKeepsInv(info.listeners, Remove(port), false);
      case ReturnToken(count) => StepKeepsInv(info.listeners, Return(port, count), false);
      case SetEventMask(mask) => StepKeepsInv(info.listeners, SetMask(port, mask == IN_EVENT), false);
      case _ =>
    }
  }

  /** Posting changes nothing but what was posted. */
  lemma TouchesPosted(h: Handler, h1: Handler, ptr: Ptr, port: Port, event: int)
    requires Touches(h, h1, ptr)
    ensures Touches(h, Post(h1, port, event), ptr)
  {
    var h2 := Post(h1, port, event);
    forall q ensures InfoOk(h2, q) { assert InfoOk(h1, q); }
    forall q ensures q == ptr || Untouched(h, h2, q) { assert q == ptr || Untouched(h, h1, q); }
  }

  lemma DeleteTouches(h: Handler, ptr: Ptr)
    requires Safe(h) && ptr in h.heap
    ensures Touches(h, Delete(h, ptr), ptr)
  {
    var h' := Delete(h, ptr);
    forall q ensures q == ptr || Untouched(h, h', q) {
      if q in h.heap && q != ptr { assert h.heap[q].fd != h.heap[ptr].fd; }
    }
    forall q ensures InfoOk(h', q) { assert InfoOk(h, q); }
  }

  lemma CloseTouches(h: Handler, ptr: Ptr, port: Port, closeSafe: bool, ok: bool)
    requires Safe(h) && ptr in h.heap && InfoInv(RemovePortOf(h.heap[ptr].info, port))
    ensures Touches(h, CloseAt(h, ptr, port, closeSafe, ok), ptr)
  {
    var info, u := h.heap[ptr].info, h.unacked - {(ptr, port)};
    BookedTouched(h, ptr, port, Close(closeSafe));
    ReplaceTouches(h, ptr, RemovePortOf(info, port), u, ok);
    ReplaceRewrites(h, ptr, RemovePortOf(info, port), u, ok);
    var h1 := ReplaceInfo(h.(unacked := u), ptr, RemovePortOf(info, port), ok);
    var h2 := if !info.Multiple? || closeSafe then Delete(h1, ptr) else h1;
    if !info.Multiple? || closeSafe {
      DeleteTouches(h1, ptr);
      TouchesTrans(h, h1, h2, ptr);
    }
    TouchesPosted(h, h2, ptr, port, DESTROYED_EVENT);
  }

  /** Every admissible command, whatever the kernel answers, is safe and touches one descriptor only. */
  lemma CommandTouches(h: Handler, ptr: Ptr, port: Port, cmd: Command, ok: bool)
    requires Safe(h) && ptr in h.heap && MayCommand(h.heap[ptr].info, ptr, h.unacked, port, cmd)
    ensures Touches(h, OnCommand(h, ptr, port, cmd, ok), ptr)
  {
    var info := h.heap[ptr].info;
    assert InfoOk(h, ptr);
    CommandKeepsInfo(info, ptr, h.unacked, port, cmd);
    match cmd
    case Close(closeSafe) => CloseTouches(h, ptr, port, closeSafe, ok);
    case ShutdownRead =>
    case ShutdownWrite =>
    case _ =>
      CommandReplaces(h, ptr, port, cmd, ok);
      BookedTouched(h, ptr, port, cmd);
      ReplaceTouches(h, ptr, Commanded(info, port, cmd), Booked(h.unacked, ptr, port, cmd), ok);
  }

  /** The kernel refuses the registration that a command needs, and the broadcast leaves a bad account. */
  ghost predicate CommandFails(h: Handler, ptr: Ptr, port: Port, cmd: Command, ok: bool)
    requires ptr in h.heap
  {
    var info := Commanded(h.heap[ptr].info, port, cmd);
    !ok && Adds(h, ptr, info) && !Drained(info)
  }

  lemma ReplacedFineIff(h: Handler, ptr: Ptr, info: Info, u: Ledger, ok: bool)
    requires ptr in h.heap && InStep(h, ptr) && InfoInv(info) && Conserved(info, ptr, u)
    requires info.Single? == h.heap[ptr].info.Single?
    ensures Fine(ReplaceInfo(h.(unacked := u), ptr, info, ok), ptr) <==> ok || !Adds(h, ptr, info) || Drained(info)
  {
    if ok || !Adds(h, ptr, info) {
      ReplaceFine(h, ptr, info, u, ok);
    } else {
      RefusedAddFine(h, ptr, info, u);
    }
  }

  lemma CommandConserves(info: Info, ptr: Ptr, u: Ledger, port: Port, cmd: Command)
    requires Conserved(info, ptr, u) && MayCommand(info, ptr, u, port, cmd) && (cmd.ReturnToken? || cmd.SetEventMask?)
    ensures Conserved(Commanded(info, port, cmd), ptr, Booked(u, ptr, port, cmd))
  {}

  lemma RemoveConserves(info: Info, ptr: Ptr, u: Ledger, port: Port)
    requires Conserved(info, ptr, u) && info.Multiple?
    ensures Conserved(RemovePortOf(info, port), ptr, u - {(ptr, port)})
  {}

  /** Dropping a port never needs a registration. */
  lemma RemoveAddsNothing(info: Info, port: Port)
    ensures EventMask(RemovePortOf(info, port)) == 0 || EventMask(RemovePortOf(info, port)) == EventMask(info)
  {}

  lemma CloseFine(h: Handler, ptr: Ptr, port: Port, closeSafe: bool, ok: bool)
    requires ptr in h.heap && Fine(h, ptr) && InfoInv(RemovePortOf(h.heap[ptr].info, port))
    ensures Fine(CloseAt(h, ptr, port, closeSafe, ok), ptr)
  {
    var info := h.heap[ptr].info;
    RemoveAddsNothing(info, port);
    if info.Multiple? && !closeSafe {
      RemoveConserves(info, ptr, h.unacked, port);
      ReplacedFineIff(h, ptr, RemovePortOf(info, port), h.unacked - {(ptr, port)}, ok);
    }
  }

  /** A command leaves its descriptor fine exactly when it does not fail in the sense above. */
  lemma CommandFine(h: Handler, ptr: Ptr, port: Port, cmd: Command, ok: bool)
    requires Safe(h) && ptr in h.heap && Fine(h, ptr) && MayCommand(h.heap[ptr].info, ptr, h.unacked, port, cmd)
    ensures Fine(OnCommand(h, ptr, port, cmd, ok), ptr) <==> !CommandFails(h, ptr, port, cmd, ok)
  {
    var info := h.heap[ptr].info;
    assert InfoOk(h, ptr);
    CommandKeepsInfo(info, ptr, h.unacked, port, cmd);
    match cmd
    case Close(closeSafe) =>
      RemoveAddsNothing(info, port);
      CloseFine(h, ptr, port, closeSafe, ok);
    case ShutdownRead =>
    case ShutdownWrite =>
    case _ =>
      CommandConserves(info, ptr, h.unacked, port, cmd);
      CommandReplaces(h, ptr, port, cmd, ok);
      ReplacedFineIff(h, ptr, Commanded(info, port, cmd), Booked(h.unacked, ptr, port, cmd), ok);
  }

  /** The assertion new_mask == 0 before a descriptor is deleted. */
  lemma ClosedMaskIsZero(i: Info, port: Port)
    requires InfoInv(i) && (i.Multiple? ==> L.RemovePort(i.listeners, port).ports == map[])
    ensures EventMask(RemovePortOf(i, port)) == 0
  {
    if i.Multiple? {
      StepKeepsInv(i.listeners, Remove(port), false);
      var after := L.RemovePort(i.listeners, port);
      assert after.ring != [] ==> after.ring[0] in after.ring && ReadyPort(after.ports, after.ring[0]);
    }
  }

  // ----- Messages -----

  lemma GetTouches(h: Handler, fd: Fd, listening: bool, ptr: Ptr)
    requires Safe(h) && ptr == (if fd in h.socketMap then h.socketMap[fd] else h.next)
    ensures Touches(h, GetInfo(h, fd, listening), ptr) && ptr in GetInfo(h, fd, listening).heap
    ensures fd !in h.socketMap ==> Fine(GetInfo(h, fd, listening), ptr)
  {
    var h' := GetInfo(h, fd, listening);
    forall q ensures InfoOk(h', q) { assert InfoOk(h, q); }
  }

  /** What a message can break. */
  ghost function MessageFault(h: Handler, m: Message): set<Ptr> {
    var h1, ptr := GetInfo(h, m.fd, m.listening), PtrOf(h, m);
    if ptr in h1.heap && CommandFails(h1, ptr, m.port, m.cmd, m.accepted) then {ptr} else {}
  }

  lemma MessageTouches(h: Handler, m: Message)
    requires Safe(h) && Admissible(h, m)
    ensures Touches(h, OnMessage(h, m), PtrOf(h, m))
    ensures Fine(h, PtrOf(h, m)) ==> (Fine(OnMessage(h, m), PtrOf(h, m)) <==> MessageFault(h, m) == {})
  {
    var h1, ptr := GetInfo(h, m.fd, m.listening), PtrOf(h, m);
    GetTouches(h, m.fd, m.listening, ptr);
    CommandTouches(h1, ptr, m.port, m.cmd, m.accepted);
    TouchesTrans(h, h1, OnMessage(h, m), ptr);
    if Fine(h, ptr) { CommandFine(h1, ptr, m.port, m.cmd, m.accepted); }
  }

  /** Whatever the kernel answers, a message is safe and breaks at most the descriptor it fails on. */
  lemma MessageKeepsSound(h: Handler, m: Message, bad: set<Ptr>)
    requires Sound(h, bad) && Admissible(h, m)
    ensures Sound(OnMessage(h, m), bad + MessageFault(h, m))
  {
    MessageTouches(h, m);
    BreaksAtMost(h, OnMessage(h, m), PtrOf(h, m), bad, MessageFault(h, m));
  }

  /** A message keeps the handler consistent exactly when it breaks nothing. */
  lemma MessageKeepsInv(h: Handler, m: Message)
    requires Consistent(h) && Admissible(h, m)
    ensures Consistent(OnMessage(h, m)) <==> MessageFault(h, m) == {}
  {
    MessageTouches(h, m);
    assert Fine(h, PtrOf(h, m));
    TouchesSound(h, OnMessage(h, m), PtrOf(h, m), {});
    assert Consistent(OnMessage(h, m)) ==> Fine(OnMessage(h, m), PtrOf(h, m));
  }

  // ----- Events -----

  lemma NotifyKeepsInfo(i: Info)
    requires InfoInv(i)
    ensures InfoInv(NotifyNext(i))
  {
    if i.Multiple? { StepKeepsInv(i.listeners, Next, false); }
  }

  lemma EventTouches(h: Handler, e: Event)
    requires Safe(h) && e.ptr in h.heap
    ensures Touches(h, OnEvent(h, e), e.ptr)
  {
    assert InfoOk(h, e.ptr);
    if PollEvents(e) == ERROR_EVENT {
      BroadcastTouches(h, e.ptr, ERROR_EVENT);
    } else if PollEvents(e) != 0 {
      DeliverTouches(h, e.ptr, PollEvents(e));
    }
  }

  lemma DeliverTouches(h: Handler, ptr: Ptr, mask: int)
    requires Safe(h) && ptr in h.heap
    ensures Touches(h, DeliverAt(h, ptr, mask), ptr)
  {
    assert InfoOk(h, ptr);
    var info := h.heap[ptr].info;
    var port := ChosenPort(info);
    var u := Told(h.unacked, ptr, port);
    ToldTouched(h, ptr, port);
    NotifyKeepsInfo(info);
    ReplaceTouches(h, ptr, NotifyNext(info), u, true);
    TouchesPosted(h, ReplaceInfo(h.(unacked := u), ptr, NotifyNext(info), true), ptr, port, mask);
  }

  /** What a reported event can break: an error whose broadcast cannot be afforded. */
  ghost function EventFault(h: Handler, e: Event): set<Ptr> {
    if e.ptr in h.heap && PollEvents(e) == ERROR_EVENT && !Affordable(h.heap[e.ptr].info) then {e.ptr} else {}
  }

  /** A descriptor with something to report has a port to report it to. */
  lemma NotifyConserves(info: Info, ptr: Ptr, u: Ledger)
    requires InfoInv(info) && Conserved(info, ptr, u) && EventMask(info) != 0
    ensures var port := ChosenPort(info);
      port != 0 && Conserved(NotifyNext(info), ptr, Told(u, ptr, port))
    ensures EventMask(NotifyNext(info)) == 0 || EventMask(NotifyNext(info)) == EventMask(info)
  {
    if info.Multiple? { assert info.listeners.ring[0] in info.listeners.ring; }
  }

  /** The assertion port != 0: a fine descriptor that is reported knows whom to tell. */
  lemma ReportedHasPort(h: Handler, e: Event)
    requires Safe(h) && Fine(h, e.ptr) && Deliverable(h, e)
    ensures EventMask(h.heap[e.ptr].info) != 0 && ChosenPort(h.heap[e.ptr].info) != 0
  {
    assert InfoOk(h, e.ptr);
    NotifyConserves(h.heap[e.ptr].info, e.ptr, h.unacked);
  }

  /** The assertion that a listening socket is told of connections only: it fails for a hang-up, and just then. */
  lemma ListeningGetsInput(h: Handler, e: Event)
    requires Fine(h, e.ptr) && Deliverable(h, e) && h.heap[e.ptr].info.Multiple?
    requires PollEvents(e) != 0 && PollEvents(e) != ERROR_EVENT
    ensures PollEvents(e) == IN_EVENT <==> !e.hangup
  {}

  lemma DeliverFine(h: Handler, ptr: Ptr, mask: int)
    requires Safe(h) && ptr in h.heap && Fine(h, ptr) && EventMask(h.heap[ptr].info) != 0
    ensures Fine(DeliverAt(h, ptr, mask), ptr)
  {
    var info := h.heap[ptr].info;
    var port := ChosenPort(info);
    assert InfoOk(h, ptr);
    NotifyKeepsInfo(info);
    NotifyConserves(info, ptr, h.unacked);
    ReplaceFine(h, ptr, NotifyNext(info), Told(h.unacked, ptr, port), true);
  }

  /**
   An error event spends a token on every port without calling UpdateEpollInstance: the
   registration stays in step exactly when some listener had a token to spare.
   */
  lemma ErrorEventInStep(h: Handler, e: Event)
    requires Safe(h) && InStep(h, e.ptr) && Deliverable(h, e) && PollEvents(e) == ERROR_EVENT
    ensures InStep(OnEvent(h, e), e.ptr) <==> HasSpareToken(h.heap[e.ptr].info)
  {
    assert InfoOk(h, e.ptr);
    BroadcastMask(h.heap[e.ptr].info);
  }

  /** An event leaves its descriptor fine exactly when it is no error, or one that can be afforded. */
  lemma EventFine(h: Handler, e: Event)
    requires Safe(h) && Fine(h, e.ptr) && Deliverable(h, e)
    ensures Fine(OnEvent(h, e), e.ptr) <==> EventFault(h, e) == {}
  {
    ReportedHasPort(h, e);
    if PollEvents(e) == ERROR_EVENT {
      assert InfoOk(h, e.ptr);
      ErrorEventInStep(h, e);
      BroadcastConserves(h.heap[e.ptr].info, e.ptr, h.unacked);
      assert OnEvent(h, e).heap[e.ptr].info == NotifyAllOf(h.heap[e.ptr].info);
    } else if PollEvents(e) != 0 {
      DeliverFine(h, e.ptr, PollEvents(e));
    }
  }

  lemma EventKeepsSound(h: Handler, e: Event, bad: set<Ptr>)
    requires Sound(h, bad) && Deliverable(h, e)
    ensures Sound(OnEvent(h, e), bad + EventFault(h, e))
  {
    EventTouches(h, e);
    if Fine(h, e.ptr) { EventFine(h, e); }
    BreaksAtMost(h, OnEvent(h, e), e.ptr, bad, EventFault(h, e));
  }

  /** An event keeps the handler consistent exactly when it breaks nothing. */
  lemma EventKeepsInv(h: Handler, e: Event)
    requires Consistent(h) && Deliverable(h, e)
    ensures Consistent(OnEvent(h, e)) <==> EventFault(h, e) == {}
  {
    EventTouches(h, e);
    assert Fine(h, e.ptr);
    EventFine(h, e);
    TouchesSound(h, OnEvent(h, e), e.ptr, {});
    assert Consistent(OnEvent(h, e)) ==> Fine(OnEvent(h, e), e.ptr);
  }

  /** Handling one event leaves the other events of the same batch deliverable, even after a fault. */
  lemma EventsIndependent(h: Handler, e: Event, f: Event)
    requires Safe(h) && Deliverable(h, e) && Deliverable(h, f) && e.ptr != f.ptr
    ensures Deliverable(OnEvent(h, e), f)
  {
    EventTouches(h, e);
    assert Untouched(h, OnEvent(h, e), f.ptr);
  }

  // ----- Whole runs -----

  /** The events of one epoll_wait: each registered descriptor at most once. */
  ghost predicate Batch(h: Handler, events: seq<Event>) {
    && (forall i :: 0 <= i < |events| ==> Deliverable(h, events[i]))
    && (forall i, j :: 0 <= i < j < |events| ==> events[i].ptr != events[j].ptr)
  }

  function OnEvents(h: Handler, events: seq<Event>): Handler
    decreases |events|
  {
    if events == [] then h else OnEvents(OnEvent(h, events[0]), events[1..])
  }

  ghost function EventFaults(h: Handler, events: seq<Event>): set<Ptr>
    decreases |events|
  {
    if events == [] then {} else EventFault(h, events[0]) + EventFaults(OnEvent(h, events[0]), events[1..])
  }

  lemma BatchStep(h: Handler, events: seq<Event>)
    requires Safe(h) && Batch(h, events) && events != []
    ensures Batch(OnEvent(h, events[0]), events[1..])
  {
    forall i | 0 < i < |events| ensures Deliverable(OnEvent(h, events[0]), events[i]) {
      EventsIndependent(h, events[0], events[i]);
    }
  }

  lemma {:induction false} EventsKeepSound(h: Handler, events: seq<Event>, bad: set<Ptr>)
    requires Sound(h, bad) && Batch(h, events)
    ensures Sound(OnEvents(h, events), bad + EventFaults(h, events))
    decreases |events|
  {
    if events == [] {
      assert bad + {} == bad;
    } else {
      var h1, fault := OnEvent(h, events[0]), EventFault(h, events[0]);
      BatchStep(h, events);
      EventKeepsSound(h, events[0], bad);
      EventsKeepSound(h1, events[1..], bad + fault);
      assert bad + fault + EventFaults(h1, events[1..]) == bad + EventFaults(h, events);
    }
  }

  /** Each message is admissible in the state it finds. */
  predicate AdmissibleAll(h: Handler, ms: seq<Message>)
    decreases |ms|
  {
    ms == [] || (Admissible(h, ms[0]) && AdmissibleAll(OnMessage(h, ms[0]), ms[1..]))
  }

  function OnMessages(h: Handler, ms: seq<Message>): Handler
    decreases |ms|
  {
    if ms == [] then h else OnMessages(OnMessage(h, ms[0]), ms[1..])
  }

  ghost function MessageFaults(h: Handler, ms: seq<Message>): set<Ptr>
    decreases |ms|
  {
    if ms == [] then {} else MessageFault(h, ms[0]) + MessageFaults(OnMessage(h, ms[0]), ms[1..])
  }

  lemma {:induction false} MessagesKeepSound(h: Handler, ms: seq<Message>, bad: set<Ptr>)
    requires Sound(h, bad) && AdmissibleAll(h, ms)
    ensures Sound(OnMessages(h, ms), bad + MessageFaults(h, ms))
    decreases |ms|
  {
    if ms == [] {
      assert bad + {} == bad;
    } else {
      var h1, fault := OnMessage(h, ms[0]), MessageFault(h, ms[0]);
      MessageKeepsSound(h, ms[0], bad);
      MessagesKeepSound(h1, ms[1..], bad + fault);
      assert bad + fault + MessageFaults(h1, ms[1..]) == bad + MessageFaults(h, ms);
    }
  }

  /** One turn of the poll loop: socket events first, then the interrupt messages. */
  datatype Turn = Turn(events: seq<Event>, messages: seq<Message>)

  function OnTurn(h: Handler, t: Turn): Handler {
    OnMessages(OnEvents(h, t.events), t.messages)
  }

  ghost predicate MayTurn(h: Handler, t: Turn) {
    Batch(h, t.events) && AdmissibleAll(OnEvents(h, t.events), t.messages)
  }

  ghost function TurnFaults(h: Handler, t: Turn): set<Ptr> {
    EventFaults(h, t.events) + MessageFaults(OnEvents(h, t.events), t.messages)
  }

  function After(h: Handler, turns: seq<Turn>): Handler
    decreases |turns|
  {
    if turns == [] then h else After(OnTurn(h, turns[0]), turns[1..])
  }

  ghost predicate MayRun(h: Handler, turns: seq<Turn>)
    decreases |turns|
  {
    turns == [] || (MayTurn(h, turns[0]) && MayRun(OnTurn(h, turns[0]), turns[1..]))
  }

  /** The descriptors hit by a fault: an error or a refusal that leaves a bad account. */
  ghost function Faults(h: Handler, turns: seq<Turn>): set<Ptr>
    decreases |turns|
  {
    if turns == [] then {} else TurnFaults(h, turns[0]) + Faults(OnTurn(h, turns[0]), turns[1..])
  }

  lemma TurnKeepsSound(h: Handler, t: Turn, bad: set<Ptr>)
    requires Sound(h, bad) && MayTurn(h, t)
    ensures Sound(OnTurn(h, t), bad + TurnFaults(h, t))
  {
    var h1, faults := OnEvents(h, t.events), EventFaults(h, t.events);
    EventsKeepSound(h, t.events, bad);
    MessagesKeepSound(h1, t.messages, bad + faults);
    assert bad + faults + MessageFaults(h1, t.messages) == bad + TurnFaults(h, t);
  }

  /** Every run is safe, and every descriptor that no fault has hit is fine at its end. */
  lemma {:induction false} RunKeepsSound(h: Handler, turns: seq<Turn>, bad: set<Ptr>)
    requires Sound(h, bad) && MayRun(h, turns)
    ensures Sound(After(h, turns), bad + Faults(h, turns))
    decreases |turns|
  {
    if turns == [] {
      assert bad + {} == bad;
    } else {
      var h1, faults := OnTurn(h, turns[0]), TurnFaults(h, turns[0]);
      TurnKeepsSound(h, turns[0], bad);
      RunKeepsSound(h1, turns[1..], bad + faults);
      assert bad + faults + Faults(h1, turns[1..]) == bad + Faults(h, turns);
    }
  }

  /** What a registration and a fine descriptor promise, spelled out. */
  ghost predicate Promised(h: Handler, ptr: Ptr) {
    ptr in h.heap ==>
      var d := h.heap[ptr];
      && (d.fd in h.epoll <==> EventMask(d.info) != 0)
      && (d.fd in h.epoll ==>
            var watched, mask := h.epoll[d.fd], EventMask(d.info);
            && (watched.interest.input <==> mask == IN_EVENT || mask == IN_EVENT + OUT_EVENT)
            && (watched.interest.output <==> mask == OUT_EVENT || mask == IN_EVENT + OUT_EVENT)
            && (watched.edge <==> d.info.Single?))
      && match d.info
         case Single(port, _, _) => 0 <= Unacked(h.unacked, ptr, port) <= SINGLE_TOKENS
         case Multiple(l) => forall p :: p in l.ports ==> 0 <= Unacked(h.unacked, ptr, p) <= TOKENS
  }

  lemma FinePromises(h: Handler, ptr: Ptr)
    requires Safe(h) && Fine(h, ptr)
    ensures Promised(h, ptr)
  {
    assert InfoOk(h, ptr);
  }

  /**
   In every reachable state, whatever the kernel refused or reported: every registration carries the
   pointer of the live descriptor of its file; and a descriptor that no fault has hit is registered
   exactly when its mask is nonzero, with that mask, and no client of it holds more unacknowledged
   messages than the 16 or 4 tokens.
   */
  lemma ReachableInv(turns: seq<Turn>)
    requires MayRun(INITIAL, turns)
    ensures var h := After(INITIAL, turns);
      && (forall fd :: fd in h.epoll ==> h.epoll[fd].ptr in h.heap && h.heap[h.epoll[fd].ptr].fd == fd)
      && (forall ptr :: ptr !in Faults(INITIAL, turns) ==> Promised(h, ptr))
  {
    var h, bad := After(INITIAL, turns), Faults(INITIAL, turns);
    RunKeepsSound(INITIAL, turns, {});
    assert {} + bad == bad;
    forall ptr | ptr !in bad ensures Promised(h, ptr) { FinePromises(h, ptr); }
  }

  // ----- After a fault -----

  /**
   An error event that takes the last spare token of a listening socket leaves it registered with
   nobody to tell: the next connection is still reported, and the assertion port != 0 fails.
   */
  lemma ErrorLeavesNobody(h: Handler, e: Event)
    requires Safe(h) && Fine(h, e.ptr) && Deliverable(h, e) && PollEvents(e) == ERROR_EVENT
    requires h.heap[e.ptr].info.Multiple? && !HasSpareToken(h.heap[e.ptr].info)
    ensures var h', next := OnEvent(h, e), e.(error := false);
      Deliverable(h', next) && PollEvents(next) != 0 && ChosenPort(h'.heap[e.ptr].info) == 0
  {
    assert InfoOk(h, e.ptr);
    ReportedHasPort(h, e);
    BroadcastMask(h.heap[e.ptr].info);
  }

  /** And when tokens come back the file cannot be registered again, so a close event is broadcast. */
  lemma ReturnAfterError(h: Handler, ptr: Ptr, port: Port, count: nat)
    requires ptr in h.heap && h.heap[ptr].fd in h.epoll && MaskAt(h, ptr) == 0 && MayReturn(h.heap[ptr].info, port)
    requires EventMask(ReturnTo(h.heap[ptr].info, port, count)) != 0
    ensures var h' := ReturnAt(h, ptr, port, count, true);
      && h'.epoll == h.epoll && h'.heap[ptr].info == NotifyAllOf(ReturnTo(h.heap[ptr].info, port, count))
      && forall p :: p in Audience(h.heap[ptr].info) ==> (p, CLOSE_EVENT) in h'.posted
  {}

  // ----- Runs that meet these faults -----

  /** A listening socket on file 3 whose client at port 1 has `k` messages unacknowledged. */
  function Listening(k: nat): Handler {
    Handler(map[3 := 0], map[0 := Desc(3, Multiple(Listeners([1], map[1 := PortState(true, TOKENS - k)])))], 1,
            map[3 := Registration(0, Interest(true, false), false)],
            if k == 0 then map[] else map[(0, 1) := k], multiset{}[(1, IN_EVENT) := k])
  }

  const LISTEN := Turn([], [Message(3, 1, true, SetEventMask(IN_EVENT), true)])
  const CONNECT := Turn([Event(0, true, false, false, false)], [])

  lemma ListenTurn()
    ensures MayTurn(INITIAL, LISTEN) && TurnFaults(INITIAL, LISTEN) == {} && OnTurn(INITIAL, LISTEN) == Listening(0)
  {
    var m := LISTEN.messages[0];
    var h := OnMessage(INITIAL, m);
    assert L.SetPortAndMask(NONE, 1, true) == Listeners([1], map[1 := PortState(true, TOKENS)]);
    assert h == Listening(0);
    assert LISTEN.messages[1..] == [] && OnMessages(INITIAL, LISTEN.messages) == OnMessages(h, []);
    assert MessageFaults(INITIAL, LISTEN.messages) == MessageFault(INITIAL, m) + MessageFaults(h, []);
  }

  lemma Connected(k: nat)
    requires k < TOKENS - 1
    ensures OnEvent(Listening(k), CONNECT.events[0]) == Listening(k + 1)
  {
    var h, h' := Listening(k), Listening(k + 1);
    ConnectedBooks(k);
    ConnectedStored(k);
  }

  lemma ConnectedBooks(k: nat)
    ensures var h, h' := Listening(k), Listening(k + 1);
      && Told(h.unacked, 0, 1) == h'.unacked
      && h.posted + multiset{(1, IN_EVENT)} == h'.posted
  {}

  lemma ConnectedStored(k: nat)
    requires k < TOKENS - 1
    ensures var h, h' := Listening(k), Listening(k + 1);
      ReplaceInfo(h.(unacked := h'.unacked), 0, NotifyNext(h.heap[0].info), true) == h'.(posted := h.posted)
  {
    ConnectedInfo(k);
    assert Listening(k).heap[0 := Desc(3, Listening(k + 1).heap[0].info)] == Listening(k + 1).heap;
  }

  lemma ConnectedInfo(k: nat)
    requires k < TOKENS - 1
    ensures NotifyNext(Listening(k).heap[0].info) == Listening(k + 1).heap[0].info
  {
    assert Rotated([1]) == [1];
    assert map[1 := PortState(true, TOKENS - k)][1 := PortState(true, TOKENS - k - 1)] ==
      map[1 := PortState(true, TOKENS - k - 1)];
  }

  lemma ConnectTurn(k: nat)
    requires k < TOKENS - 1
    ensures MayTurn(Listening(k), CONNECT) && TurnFaults(Listening(k), CONNECT) == {}
    ensures OnTurn(Listening(k), CONNECT) == Listening(k + 1)
  {
    var h, e := Listening(k), CONNECT.events[0];
    Connected(k);
    assert CONNECT.events[1..] == [];
    assert OnEvents(h, CONNECT.events) == OnEvents(Listening(k + 1), []);
    assert EventFaults(h, CONNECT.events) == EventFault(h, e) + EventFaults(Listening(k + 1), []);
  }

  lemma RunFirst(h: Handler, t: Turn, rest: seq<Turn>)
    ensures After(h, [t] + rest) == After(OnTurn(h, t), rest)
    ensures MayRun(h, [t] + rest) <==> MayTurn(h, t) && MayRun(OnTurn(h, t), rest)
    ensures Faults(h, [t] + rest) == TurnFaults(h, t) + Faults(OnTurn(h, t), rest)
  {
    assert ([t] + rest)[1..] == rest;
  }

  /** `turns` lead, without a fault, from `h` to the last token. */
  ghost predicate ToLast(h: Handler, turns: seq<Turn>) {
    MayRun(h, turns) && Faults(h, turns) == {} && After(h, turns) == Listening(3)
  }

  lemma OneMore(h: Handler, t: Turn, rest: seq<Turn>)
    requires MayTurn(h, t) && TurnFaults(h, t) == {} && ToLast(OnTurn(h, t), rest)
    ensures ToLast(h, [t] + rest)
  {
    RunFirst(h, t, rest);
  }

  lemma ThreeConnections() returns (turns: seq<Turn>)
    ensures ToLast(INITIAL, turns)
  {
    turns := ConnectionsFrom(0);
    ListenTurn();
    OneMore(INITIAL, LISTEN, turns);
    turns := [LISTEN] + turns;
  }

  lemma ConnectionsFrom(k: nat) returns (turns: seq<Turn>)
    requires k <= 3
    ensures ToLast(Listening(k), turns)
    decreases 3 - k
  {
    if k == 3 {
      turns := [];
    } else {
      turns := ConnectionsFrom(k + 1);
      ConnectTurn(k);
      OneMore(Listening(k), CONNECT, turns);
      turns := [CONNECT] + turns;
    }
  }

  /** After three connections an error takes the last token: out of step, and nobody to tell about the next one. */
  lemma ErrorAfterThree() returns (turns: seq<Turn>, e: Event)
    ensures MayRun(INITIAL, turns) && Faults(INITIAL, turns) == {}
    ensures var h := After(INITIAL, turns);
      && Deliverable(h, e) && PollEvents(e) == ERROR_EVENT
      && !InStep(OnEvent(h, e), e.ptr) && !Consistent(OnEvent(h, e))
      && Deliverable(OnEvent(h, e), e.(error := false)) && ChosenPort(OnEvent(h, e).heap[e.ptr].info) == 0
  {
    turns := ThreeConnections();
    e := Event(0, true, false, false, true);
    RunKeepsSound(INITIAL, turns, {});
    assert {} + Faults(INITIAL, turns) == {};
    LastToken(e);
  }

  lemma LastToken(e: Event)
    requires Consistent(Listening(3)) && e == Event(0, true, false, false, true)
    ensures var h := Listening(3);
      && Deliverable(h, e) && !InStep(OnEvent(h, e), 0) && !Consistent(OnEvent(h, e))
      && Deliverable(OnEvent(h, e), e.(error := false)) && ChosenPort(OnEvent(h, e).heap[0].info) == 0
  {
    var h := Listening(3);
    assert Fine(h, 0);
    assert !HasSpareToken(h.heap[0].info);
    EventKeepsInv(h, e);
    ErrorEventInStep(h, e);
    ErrorLeavesNobody(h, e);
  }

  /** A listening socket that hangs up breaks nothing but that assertion. */
  lemma HangupOfListener() returns (e: Event)
    ensures MayRun(INITIAL, [LISTEN]) && var h := After(INITIAL, [LISTEN]);
      && Deliverable(h, e) && EventFault(h, e) == {} && PollEvents(e) != IN_EVENT && Consistent(OnEvent(h, e))
  {
    e := Event(0, false, false, true, false);
    ListenTurn();
    RunFirst(INITIAL, LISTEN, []);
    assert [LISTEN] + [] == [LISTEN];
    RunKeepsSound(INITIAL, [LISTEN], {});
    EventKeepsInv(Listening(0), e);
  }

  /** The kernel refuses the first registration of a file, such as that of a device it cannot watch. */
  lemma RefusedAtOnce() returns (m: Message)
    ensures Consistent(INITIAL) && Admissible(INITIAL, m)
    ensures !InStep(OnMessage(INITIAL, m), PtrOf(INITIAL, m)) && !Consistent(OnMessage(INITIAL, m))
  {
    m := Message(3, 1, false, SetEventMask(IN_EVENT), false);
    var h := OnMessage(INITIAL, m);
    assert h.heap[0].info == Single(1, SINGLE_TOKENS - 1, IN_EVENT) && 3 !in h.epoll;
    assert !Fine(h, 0);
  }
}
