/** Descriptor states as values: one port with a mask, or many listeners. */
module Descriptors {
  import opened Basics
  import opened Ring
  import opened L = Listeners

  /** kTokenCount of a descriptor with a single port. */
  const SINGLE_TOKENS := 16

  /** Event bits: kInEvent is 1, kOutEvent 2, kErrorEvent 4, kCloseEvent 8, kDestroyedEvent 16. */
  const IN_EVENT := 1
  const OUT_EVENT := 2
  const ERROR_EVENT := 4
  const CLOSE_EVENT := 8
  const DESTROYED_EVENT := 16

  datatype Info =
    | Single(port: Port, tokens: int, mask: int)
    | Multiple(listeners: Listeners)

  /** The source runs both kinds with token counting enabled. */
  function NewInfo(listening: bool): Info {
    if listening then Multiple(NONE) else Single(0, SINGLE_TOKENS, 0)
  }

  function EventMask(i: Info): int {
    match i
    case Single(_, tokens, mask) => if tokens <= 0 then 0 else mask
    case Multiple(l) => Mask(l)
  }

  function SetMaskOf(i: Info, port: Port, mask: int): Info {
    match i
    case Single(_, tokens, _) => Single(port, tokens, mask)
    case Multiple(l) => Multiple(L.SetPortAndMask(l, port, mask == IN_EVENT))
  }

  function RemovePortOf(i: Info, port: Port): Info {
    match i
    case Single(_, tokens, _) => Single(0, tokens, 0)
    case Multiple(l) => Multiple(L.RemovePort(l, port))
  }

  function ChosenPort(i: Info): Port {
    match i
    case Single(port, _, _) => port
    case Multiple(l) => Chosen(l)
  }

  function NotifyNext(i: Info): Info {
    match i
    case Single(port, tokens, mask) => Single(port, tokens - 1, mask)
    case Multiple(l) => Multiple(NextNotify(l, false))
  }

  function NotifyAllOf(i: Info): Info {
    match i
    case Single(port, tokens, mask) => Single(port, tokens - 1, mask)
    case Multiple(l) => Multiple(NotifyAll(l, false))
  }

  /** Who receives a broadcast. */
  function Audience(i: Info): set<Port> {
    match i
    case Single(port, _, _) => if port != 0 then {port} else {}
    case Multiple(l) => l.ports.Keys
  }

  function ReturnTo(i: Info, port: Port, count: nat): Info
    requires i.Multiple? ==> port in i.listeners.ports
  {
    match i
    case Single(p, tokens, mask) => Single(p, tokens + count, mask)
    case Multiple(l) => Multiple(L.ReturnTokens(l, port, count, false))
  }

  ghost predicate InfoInv(i: Info) {
    match i
    case Single(port, _, mask) => 0 <= mask < 4 && (mask != 0 ==> port != 0)
    case Multiple(l) => L.Inv(l) && 0 !in l.ports
  }

  /**
   Some listener has a token to spare, so the descriptor keeps its event mask when every port
   loses one token.
   */
  ghost predicate HasSpareToken(i: Info) {
    match i
    case Single(_, tokens, _) => tokens > 1
    case Multiple(l) => exists p :: p in l.ring && p in l.ports && l.ports[p].tokens > 1
  }

  /** Everybody who receives a broadcast has a token for it. */
  ghost predicate AllCanPay(i: Info) {
    match i
    case Single(_, tokens, _) => tokens > 0
    case Multiple(l) => forall p :: p in l.ports ==> l.ports[p].tokens > 0
  }

  /** Every listener has a token for a broadcast, and somebody has one left after it. */
  ghost predicate Affordable(i: Info) {
    HasSpareToken(i) && AllCanPay(i)
  }

  lemma BroadcastMask(i: Info)
    requires InfoInv(i) && EventMask(i) != 0
    ensures EventMask(NotifyAllOf(i)) == if HasSpareToken(i) then EventMask(i) else 0
  {
    match i
    case Single(_, _, _) =>
    case Multiple(l) =>
      var after := NotifyAll(l, false);
      ReadyOnlyDistinct(l.ring, after.ports);
      if after.ring != [] {
        var p := after.ring[0];
        assert p in after.ring && p in l.ring && ReadyPort(after.ports, p);
        assert HasSpareToken(i);
      }
      if HasSpareToken(i) {
        var p :| p in l.ring && p in l.ports && l.ports[p].tokens > 1;
        assert ReadyPort(l.ports, p) && ReadyPort(after.ports, p) && p in after.ring;
      }
  }

  /** A descriptor connected to a single port. */
  class DescriptorInfoSingle {
    const disableTokens: bool
    var port: Port
    var tokens: int
    var mask: int

    function View(): Info
      reads this
    {
      Single(port, tokens, mask)
    }

    constructor (disable: bool)
      ensures View() == NewInfo(false) && disableTokens == disable
    {
      disableTokens, port, tokens, mask := disable, 0, SINGLE_TOKENS, 0;
    }

    method SetPortAndMask(newPort: Port, newMask: int)
      requires port == 0 || newPort == port
      modifies this
      ensures View() == SetMaskOf(old(View()), newPort, newMask)
    {
      port, mask := newPort, newMask;
    }

    method RemovePort(oldPort: Port)
      requires port == 0 || port == oldPort
      modifies this
      ensures View() == RemovePortOf(old(View()), oldPort) && EventMask(View()) == 0
    {
      port, mask := 0, 0;
    }

    method NextNotifyDartPort() returns (chosen: Port)
      modifies this
      ensures chosen == ChosenPort(old(View()))
      ensures View() == if disableTokens then old(View()) else NotifyNext(old(View()))
    {
      if !disableTokens {
        tokens := tokens - 1;
      }
      return port;
    }

    method NotifyAllDartPorts() returns (posts: set<Port>)
      modifies this
      ensures posts == Audience(old(View()))
      ensures View() == if disableTokens then old(View()) else NotifyAllOf(old(View()))
    {
      posts := if port != 0 then {port} else {};
      if !disableTokens {
        tokens := tokens - 1;
      }
    }

    method ReturnTokens(toPort: Port, count: nat)
      requires port == toPort
      requires !disableTokens ==> tokens + count <= SINGLE_TOKENS
      modifies this
      ensures View() == if disableTokens then old(View()) else ReturnTo(old(View()), toPort, count)
    {
      if !disableTokens {
        tokens := tokens + count;
      }
    }
  }
}
