/**
 Token flow control of a listening descriptor, on values: which ports are ready, in which order
 they are served, and what every run of the descriptor's operations keeps.
 */
module Listeners {
  import opened Basics
  import opened Ring

  /** kTokenCount of a descriptor shared by several ports. */
  const TOKENS := 4

  datatype PortState = PortState(reading: bool, tokens: int) {
    predicate Ready() { tokens > 0 && reading }
  }

  /** `ring` lists the ready ports in service order; `ports` holds every registered port. */
  datatype Listeners = Listeners(ring: seq<Port>, ports: map<Port, PortState>)

  const NONE := Listeners([], map[])

  predicate ReadyPort(ports: map<Port, PortState>, p: Port) {
    p in ports && ports[p].Ready()
  }

  /** The ring holds each port that is reading with tokens left exactly once, and nothing else. */
  ghost predicate Inv(l: Listeners) {
    && Distinct(l.ring)
    && forall p :: p in l.ring <==> ReadyPort(l.ports, p)
  }

  // ----- The operations of DescriptorInfoMultipleMixin -----

  function SetPortAndMask(l: Listeners, port: Port, reading: bool): Listeners {
    var wasReady := ReadyPort(l.ports, port);
    var ports := l.ports[port := PortState(reading, if port in l.ports then l.ports[port].tokens else TOKENS)];
    var isReady := ReadyPort(ports, port);
    Listeners(if wasReady && !isReady then RemoveFirst(l.ring, port)
              else if !wasReady && isReady then l.ring + [port]
              else l.ring, ports)
  }

  function RemovePort(l: Listeners, port: Port): Listeners {
    Listeners(if ReadyPort(l.ports, port) then RemoveFirst(l.ring, port) else l.ring, l.ports - {port})
  }

  function Spend(st: PortState, disabled: bool): PortState {
    if disabled then st else st.(tokens := st.tokens - 1)
  }

  /** The port chosen by NextNotifyDartPort, 0 when nobody is ready. */
  function Chosen(l: Listeners): Port {
    if l.ring == [] then 0 else l.ring[0]
  }

  function NextNotify(l: Listeners, disabled: bool): Listeners {
    if l.ring == [] || l.ring[0] !in l.ports then l else
      var p := l.ring[0];
      var st := Spend(l.ports[p], disabled);
      Listeners(if st.tokens <= 0 then l.ring[1..] else Rotated(l.ring), l.ports[p := st])
  }

  /** The ports of `ring` that are ready in `ports`, in order. */
  function ReadyOnly(ring: seq<Port>, ports: map<Port, PortState>): seq<Port> {
    if ring == [] then []
    else if ReadyPort(ports, ring[0]) then [ring[0]] + ReadyOnly(ring[1..], ports)
    else ReadyOnly(ring[1..], ports)
  }

  function NotifyAll(l: Listeners, disabled: bool): Listeners {
    var ports := map p | p in l.ports :: Spend(l.ports[p], disabled);
    Listeners(ReadyOnly(l.ring, ports), ports)
  }

  function ReturnTokens(l: Listeners, port: Port, count: nat, disabled: bool): Listeners
    requires port in l.ports
  {
    var st := l.ports[port];
    var st' := if disabled then st else st.(tokens := st.tokens + count);
    Listeners(if !st.Ready() && st'.Ready() then l.ring + [port] else l.ring, l.ports[port := st'])
  }

  /** The event mask of the descriptor: kInEvent while somebody is ready. */
  function Mask(l: Listeners): int {
    if l.ring != [] then 1 else 0
  }

  // ----- Runs -----

  datatype Op =
    | SetMask(port: Port, reading: bool)
    | Remove(port: Port)
    | RemoveAll
    | Next
    | Broadcast
    | Return(port: Port, count: nat)

  /** ReturnTokens asserts that the port is registered. */
  predicate Legal(l: Listeners, op: Op) {
    op.Return? ==> op.port in l.ports
  }

  function Apply(l: Listeners, op: Op, disabled: bool): Listeners
    requires Legal(l, op)
  {
    match op
    case SetMask(port, reading) => SetPortAndMask(l, port, reading)
    case Remove(port) => RemovePort(l, port)
    case RemoveAll => NONE
    case Next => NextNotify(l, disabled)
    case Broadcast => NotifyAll(l, disabled)
    case Return(port, count) => ReturnTokens(l, port, count, disabled)
  }

  ghost predicate LegalRun(l: Listeners, ops: seq<Op>, disabled: bool)
    decreases ops
  {
    ops == [] || (Legal(l, ops[0]) && LegalRun(Apply(l, ops[0], disabled), ops[1..], disabled))
  }

  function Run(l: Listeners, ops: seq<Op>, disabled: bool): Listeners
    requires LegalRun(l, ops, disabled)
    decreases ops
  {
    if ops == [] then l else Run(Apply(l, ops[0], disabled), ops[1..], disabled)
  }

  lemma {:induction false} RemoveFirstDistinct(s: seq<Port>, x: Port)
    requires Distinct(s)
    ensures Distinct(RemoveFirst(s, x))
    ensures forall y :: y in RemoveFirst(s, x) <==> y in s && y != x
  {
    if s != [] {
      assert s == [s[0]] + s[1..];
      DistinctCons(s[0], s[1..]);
      RemoveFirstDistinct(s[1..], x);
      DistinctCons(s[0], RemoveFirst(s[1..], x));
    }
  }

  lemma {:induction false} ReadyOnlyDistinct(ring: seq<Port>, ports: map<Port, PortState>)
    requires Distinct(ring)
    ensures Distinct(ReadyOnly(ring, ports))
    ensures forall p :: p in ReadyOnly(ring, ports) <==> p in ring && ReadyPort(ports, p)
  {
    if ring != [] {
      assert ring == [ring[0]] + ring[1..];
      DistinctCons(ring[0], ring[1..]);
      ReadyOnlyDistinct(ring[1..], ports);
      DistinctCons(ring[0], ReadyOnly(ring[1..], ports));
    }
  }

  lemma NextKeepsInv(l: Listeners, disabled: bool)
    requires Inv(l)
    ensures Inv(NextNotify(l, disabled))
  {
    if l.ring != [] {
      var p, l' := l.ring[0], NextNotify(l, disabled);
      assert p in l.ring && l.ring == [p] + l.ring[1..];
      DistinctCons(p, l.ring[1..]);
      DistinctSnoc(l.ring[1..], p);
      forall q ensures q in l'.ring <==> ReadyPort(l'.ports, q) {
        assert q in l.ring <==> ReadyPort(l.ports, q);
      }
    }
  }

  /** Every operation keeps the ring equal to the ready ports. */
  lemma StepKeepsInv(l: Listeners, op: Op, disabled: bool)
    requires Inv(l) && Legal(l, op)
    ensures Inv(Apply(l, op, disabled))
  {
    match op
    case SetMask(port, reading) =>
      RemoveFirstDistinct(l.ring, port);
      DistinctSnoc(l.ring, port);
    case Remove(port) => RemoveFirstDistinct(l.ring, port);
    case RemoveAll =>
    case Next => NextKeepsInv(l, disabled);
    case Broadcast =>
      var l' := Apply(l, op, disabled);
      ReadyOnlyDistinct(l.ring, l'.ports);
    case Return(port, count) => DistinctSnoc(l.ring, port);
  }

  /** After any sequence of operations the ring is exactly the ready ports. */
  lemma {:induction false} RunKeepsInv(l: Listeners, ops: seq<Op>, disabled: bool)
    requires Inv(l) && LegalRun(l, ops, disabled)
    ensures Inv(Run(l, ops, disabled))
    decreases ops
  {
    if ops != [] {
      StepKeepsInv(l, ops[0], disabled);
      RunKeepsInv(Apply(l, ops[0], disabled), ops[1..], disabled);
    }
  }

  // ----- Bounded waiting -----

  function Position(s: seq<Port>, p: Port): (i: nat)
    ensures i <= |s|
    ensures i < |s| <==> p in s
    ensures i < |s| ==> s[i] == p
  {
    if s == [] || s[0] == p then 0 else 1 + Position(s[1..], p)
  }

  predicate Picks(l: Listeners, op: Op, p: Port) {
    op.Next? && l.ring != [] && l.ring[0] == p
  }

  /** `p` is in the ready ring in every state of the run until it is picked. */
  ghost predicate WaitsReady(l: Listeners, ops: seq<Op>, disabled: bool, p: Port)
    requires LegalRun(l, ops, disabled)
    decreases ops
  {
    p in l.ring && (ops == [] || Picks(l, ops[0], p) || WaitsReady(Apply(l, ops[0], disabled), ops[1..], disabled, p))
  }

  ghost predicate PickedIn(l: Listeners, ops: seq<Op>, disabled: bool, p: Port)
    requires LegalRun(l, ops, disabled)
    decreases ops
  {
    ops != [] && (Picks(l, ops[0], p) || PickedIn(Apply(l, ops[0], disabled), ops[1..], disabled, p))
  }

  function NextCalls(ops: seq<Op>): nat {
    if ops == [] then 0 else (if ops[0].Next? then 1 else 0) + NextCalls(ops[1..])
  }

  lemma {:induction false} PositionRemoveFirst(s: seq<Port>, x: Port, p: Port)
    requires p in s && p != x
    ensures Position(RemoveFirst(s, x), p) <= Position(s, p)
  {
    if s[0] != p && s[0] != x { PositionRemoveFirst(s[1..], x, p); }
  }

  lemma {:induction false} ReadyOnlyHas(s: seq<Port>, ports: map<Port, PortState>, p: Port)
    requires p in s && ReadyPort(ports, p)
    ensures p in ReadyOnly(s, ports)
  {
    if s[0] != p { ReadyOnlyHas(s[1..], ports, p); }
  }

  lemma {:induction false} PositionReadyOnly(s: seq<Port>, ports: map<Port, PortState>, p: Port)
    requires p in s && ReadyPort(ports, p)
    ensures Position(ReadyOnly(s, ports), p) <= Position(s, p)
  {
    if s[0] != p {
      PositionReadyOnly(s[1..], ports, p);
      ReadyOnlyHas(s[1..], ports, p);
      if ReadyPort(ports, s[0]) { assert ReadyOnly(s, ports)[1..] == ReadyOnly(s[1..], ports); }
    }
  }

  lemma {:induction false} PositionAppend(s: seq<Port>, t: seq<Port>, p: Port)
    requires p in s
    ensures Position(s + t, p) == Position(s, p)
  {
    assert (s + t)[0] == s[0] && (s + t)[1..] == s[1..] + t;
    if s[0] != p { PositionAppend(s[1..], t, p); }
  }

  /** No operation moves a waiting port back, and each call that passes it over moves it forward. */
  lemma StepAdvances(l: Listeners, op: Op, disabled: bool, p: Port)
    requires Inv(l) && Legal(l, op) && p in l.ring && p in Apply(l, op, disabled).ring && !Picks(l, op, p)
    ensures Position(Apply(l, op, disabled).ring, p) + (if op.Next? then 1 else 0) <= Position(l.ring, p)
  {
    var l' := Apply(l, op, disabled);
    StepKeepsInv(l, op, disabled);
    assert ReadyPort(l.ports, p) && ReadyPort(l'.ports, p);
    match op
    case SetMask(port, reading) =>
      if port != p { PositionRemoveFirst(l.ring, port, p); }
      PositionAppend(l.ring, [port], p);
    case Remove(port) => if port != p { PositionRemoveFirst(l.ring, port, p); }
    case RemoveAll =>
    case Next =>
      assert l.ring[0] in l.ring;
      assert l.ring == [l.ring[0]] + l.ring[1..];
      PositionAppend(l.ring[1..], [l.ring[0]], p);
    case Broadcast => PositionReadyOnly(l.ring, l'.ports, p);
    case Return(port, count) => PositionAppend(l.ring, [port], p);
  }

  /**
   A port at position i of the ready ring that stays ready is picked within i + 1 calls of
   NextNotifyDartPort, whatever the other operations of the run are.
   */
  lemma {:induction false} BoundedWaiting(l: Listeners, ops: seq<Op>, disabled: bool, p: Port)
    requires Inv(l) && LegalRun(l, ops, disabled) && WaitsReady(l, ops, disabled, p)
    requires NextCalls(ops) > Position(l.ring, p)
    ensures PickedIn(l, ops, disabled, p)
    decreases ops
  {
    if !Picks(l, ops[0], p) {
      StepKeepsInv(l, ops[0], disabled);
      StepAdvances(l, ops[0], disabled, p);
      BoundedWaiting(Apply(l, ops[0], disabled), ops[1..], disabled, p);
    }
  }

  // ----- Token conservation -----

  /** How many messages one operation sends to `p`. */
  function Notices(l: Listeners, op: Op, p: Port): nat {
    if Picks(l, op, p) || (op.Broadcast? && p in l.ports) then 1 else 0
  }

  function Returned(op: Op, p: Port): nat {
    if op.Return? && op.port == p then op.count else 0
  }

  /** `p` stays registered throughout the run. */
  ghost predicate Live(l: Listeners, ops: seq<Op>, p: Port)
    requires LegalRun(l, ops, false)
    decreases ops
  {
    p in l.ports && (ops == [] || Live(Apply(l, ops[0], false), ops[1..], p))
  }

  function Owed(l: Listeners, ops: seq<Op>, p: Port): int
    requires LegalRun(l, ops, false)
    decreases ops
  {
    if ops == [] then 0
    else Notices(l, ops[0], p) - Returned(ops[0], p) + Owed(Apply(l, ops[0], false), ops[1..], p)
  }

  lemma StepConserves(l: Listeners, op: Op, p: Port)
    requires Inv(l) && Legal(l, op) && p in l.ports && p in Apply(l, op, false).ports
    ensures Apply(l, op, false).ports[p].tokens == l.ports[p].tokens - Notices(l, op, p) + Returned(op, p)
  {
    if op.Next? && l.ring != [] { assert l.ring[0] in l.ring; }
  }

  /** A registered port's tokens are what it started with, less the notices sent, plus the tokens returned. */
  lemma {:induction false} TokensConserved(l: Listeners, ops: seq<Op>, p: Port)
    requires Inv(l) && LegalRun(l, ops, false) && Live(l, ops, p)
    ensures p in Run(l, ops, false).ports
    ensures Run(l, ops, false).ports[p].tokens == l.ports[p].tokens - Owed(l, ops, p)
    decreases ops
  {
    if ops != [] {
      StepKeepsInv(l, ops[0], false);
      StepConserves(l, ops[0], p);
      TokensConserved(Apply(l, ops[0], false), ops[1..], p);
    }
  }

  /** The client holding `owed` unacknowledged notices for `p` never returns more than it holds. */
  ghost predicate Honest(l: Listeners, ops: seq<Op>, p: Port, owed: int)
    requires LegalRun(l, ops, false)
    decreases ops
  {
    ops == [] || (Returned(ops[0], p) <= owed &&
                  Honest(Apply(l, ops[0], false), ops[1..], p, owed + Notices(l, ops[0], p) - Returned(ops[0], p)))
  }

  /** The upper-bound assertion of ReturnTokens, at every return made for `p`. */
  ghost predicate BoundAssertsHold(l: Listeners, ops: seq<Op>, p: Port)
    requires LegalRun(l, ops, false)
    decreases ops
  {
    ops == [] || ((ops[0] == Return(p, Returned(ops[0], p)) ==> l.ports[p].tokens + Returned(ops[0], p) <= TOKENS) &&
                  BoundAssertsHold(Apply(l, ops[0], false), ops[1..], p))
  }

  function Broadcasts(ops: seq<Op>): nat {
    if ops == [] then 0 else (if ops[0].Broadcast? then 1 else 0) + Broadcasts(ops[1..])
  }

  /**
   With an honest client the upper-bound assertion never fails, and the unacknowledged notices
   of a port are at most kTokenCount plus the broadcasts, which are sent without a token check.
   */
  lemma {:induction false} HonestClientBound(l: Listeners, ops: seq<Op>, p: Port, owed: nat, slack: nat)
    requires Inv(l) && LegalRun(l, ops, false) && Live(l, ops, p) && Honest(l, ops, p, owed)
    requires l.ports[p].tokens == TOKENS - owed && owed <= TOKENS + slack
    ensures BoundAssertsHold(l, ops, p)
    ensures p in Run(l, ops, false).ports
    ensures Run(l, ops, false).ports[p].tokens <= TOKENS
    ensures 0 <= owed + Owed(l, ops, p) <= TOKENS + slack + Broadcasts(ops)
    decreases ops
  {
    if ops != [] {
      var op := ops[0];
      StepKeepsInv(l, op, false);
      StepConserves(l, op, p);
      if Picks(l, op, p) { assert p in l.ring; }
      HonestClientBound(Apply(l, op, false), ops[1..], p, owed + Notices(l, op, p) - Returned(op, p),
                        if op.Broadcast? then slack + 1 else slack);
    }
  }

  // ----- The DEBUG scan -----

  ghost function Elements<T>(s: seq<T>): set<T> {
    set x | x in s
  }

  lemma {:induction false} DistinctCardinality<T>(s: seq<T>)
    requires Distinct(s)
    ensures |s| == |Elements(s)|
  {
    if s == [] {
      assert Elements(s) == {};
    } else {
      DistinctCardinality(s[1..]);
      assert s == [s[0]] + s[1..];
      DistinctCons(s[0], s[1..]);
      assert Elements(s) == {s[0]} + Elements(s[1..]);
    }
  }

  /** The count that SetPortAndMask recomputes in DEBUG mode: ring length minus ready ports is zero. */
  lemma RingCountsReady(l: Listeners)
    requires Inv(l)
    ensures |l.ring| == |set p | p in l.ports && l.ports[p].Ready()|
  {
    DistinctCardinality(l.ring);
    forall p ensures p in l.ring <==> p in l.ports && l.ports[p].Ready() {
      assert p in l.ring <==> ReadyPort(l.ports, p);
    }
    assert Elements(l.ring) == set p | p in l.ports && l.ports[p].Ready();
  }
}
