/** The descriptor classes of the event handler, proved against the value-level operations. */
module DescriptorInfos {
  import opened Basics
  import opened Ring
  import opened L = Listeners

  class PortEntry {
    const dartPort: Port
    var isReading: bool
    var tokenCount: int

    constructor (port: Port, reading: bool)
      ensures dartPort == port && isReading == reading && tokenCount == TOKENS
    {
      dartPort, isReading, tokenCount := port, reading, TOKENS;
    }

    function State(): PortState
      reads this
    {
      PortState(isReading, tokenCount)
    }

    predicate IsReady()
      reads this
    {
      State().Ready()
    }
  }

  ghost function Ports(s: seq<PortEntry>): (r: seq<Port>)
    ensures |r| == |s| && forall i :: 0 <= i < |s| ==> r[i] == s[i].dartPort
  {
    seq(|s|, i requires 0 <= i < |s| => s[i].dartPort)
  }

  lemma PortsRotated(s: seq<PortEntry>)
    requires s != []
    ensures Ports(s[1..]) == Ports(s)[1..] && Ports(Rotated(s)) == Rotated(Ports(s))
    ensures forall e :: e in Rotated(s) <==> e in s
    ensures forall e :: e in s[1..] ==> e in s
  {
    assert s == [s[0]] + s[1..];
  }

  lemma PortsHas(s: seq<PortEntry>, e: PortEntry)
    ensures e in s ==> e.dartPort in Ports(s)
  {
    if e in s {
      var i :| 0 <= i < |s| && s[i] == e;
      assert Ports(s)[i] == e.dartPort;
    }
  }

  lemma {:induction false} PortsRemoveFirst(s: seq<PortEntry>, e: PortEntry)
    requires forall x :: x in s && x.dartPort == e.dartPort ==> x == e
    ensures Ports(RemoveFirst(s, e)) == RemoveFirst(Ports(s), e.dartPort)
  {
    if s != [] {
      assert Ports(s)[1..] == Ports(s[1..]);
      if s[0] != e {
        assert s[0] in s;
        PortsRemoveFirst(s[1..], e);
      }
    }
  }

  lemma {:induction false} ReadyOnlySame(ring: seq<Port>, a: map<Port, PortState>, b: map<Port, PortState>)
    requires forall p :: p in ring ==> (ReadyPort(a, p) <==> ReadyPort(b, p))
    ensures ReadyOnly(ring, a) == ReadyOnly(ring, b)
  {
    if ring != [] {
      assert ring[0] in ring;
      ReadyOnlySame(ring[1..], a, b);
    }
  }

  /** When `p` alone stops being ready, exactly `p` leaves the ring. */
  lemma {:induction false} ReadyOnlyDrop(ring: seq<Port>, a: map<Port, PortState>, b: map<Port, PortState>, p: Port)
    requires Distinct(ring) && ReadyPort(a, p) && !ReadyPort(b, p)
    requires forall q :: q in ring && q != p ==> (ReadyPort(a, q) <==> ReadyPort(b, q))
    ensures ReadyOnly(ring, b) == RemoveFirst(ReadyOnly(ring, a), p)
  {
    if ring != [] {
      assert ring[0] in ring && ring == [ring[0]] + ring[1..];
      DistinctCons(ring[0], ring[1..]);
      if ring[0] == p {
        ReadyOnlySame(ring[1..], a, b);
      } else {
        ReadyOnlyDrop(ring[1..], a, b, p);
      }
    }
  }

  /** Spending a token of `p` never makes a port ready, and takes out `p` if it stops being ready. */
  lemma ReadyOnlySpend(ring: seq<Port>, a: map<Port, PortState>, p: Port, st: PortState)
    requires Distinct(ring) && p in a && (st.Ready() ==> a[p].Ready())
    ensures ReadyOnly(ring, a[p := st]) == if a[p].Ready() && !st.Ready() then RemoveFirst(ReadyOnly(ring, a), p)
                                           else ReadyOnly(ring, a)
  {
    if a[p].Ready() && !st.Ready() {
      ReadyOnlyDrop(ring, a, a[p := st], p);
    } else {
      ReadyOnlySame(ring, a, a[p := st]);
    }
  }

  lemma {:induction false} ReadyOnlyAll(ring: seq<Port>, ports: map<Port, PortState>)
    requires forall p :: p in ring ==> ReadyPort(ports, p)
    ensures ReadyOnly(ring, ports) == ring
  {
    if ring != [] {
      assert ring[0] in ring;
      ReadyOnlyAll(ring[1..], ports);
    }
  }

  /** One turn of the loop in NotifyAllDartPorts. */
  function SpendOne(l: Listeners, p: Port, disabled: bool): Listeners
    requires p in l.ports
  {
    var ports := l.ports[p := Spend(l.ports[p], disabled)];
    Listeners(if ReadyPort(l.ports, p) && !ReadyPort(ports, p) then RemoveFirst(l.ring, p) else l.ring, ports)
  }

  /** All ports but those in `rest` have been notified. */
  ghost function Partly(l: Listeners, rest: set<Port>, disabled: bool): Listeners {
    var ports := map p | p in l.ports :: if p in rest then l.ports[p] else Spend(l.ports[p], disabled);
    Listeners(ReadyOnly(l.ring, ports), ports)
  }

  /** From nobody to everybody, whatever the order of the turns. */
  lemma PartlyNext(l: Listeners, rest: set<Port>, p: Port, disabled: bool)
    requires Distinct(l.ring) && p in l.ports && p in rest
    ensures SpendOne(Partly(l, rest, disabled), p, disabled) == Partly(l, rest - {p}, disabled)
  {
    var before := Partly(l, rest, disabled).ports;
    ReadyOnlySpend(l.ring, before, p, Spend(before[p], disabled));
    assert before[p := Spend(before[p], disabled)] == Partly(l, rest - {p}, disabled).ports;
  }

  lemma PartlyEnds(l: Listeners, disabled: bool)
    requires Inv(l)
    ensures Partly(l, l.ports.Keys, disabled) == l && Partly(l, {}, disabled) == NotifyAll(l, disabled)
  {
    ReadyOnlyAll(l.ring, l.ports);
    assert Partly(l, l.ports.Keys, disabled).ports == l.ports;
    assert Partly(l, {}, disabled).ports == NotifyAll(l, disabled).ports;
  }

  lemma RotatedOn<T>(s: seq<T>, k: nat)
    requires k < |s|
    ensures Rotated(s[k..] + s[..k]) == s[k + 1..] + s[..k + 1]
  {}

  class DescriptorInfoMultiple {
    const disableTokens: bool
    const activeReaders: CircularLinkedList<PortEntry>
    var tokensMap: map<Port, PortEntry>

    /** The abstract value: what the map and the ring together represent. */
    ghost var view: Listeners

    /** The pointers are sound and represent `view`: the ring holds only live entries of the map. */
    ghost predicate Sound()
      reads this, activeReaders, activeReaders.repr, tokensMap.Values
    {
      && activeReaders.Valid()
      && tokensMap.Keys == view.ports.Keys
      && (forall p :: p in tokensMap ==> tokensMap[p].dartPort == p && tokensMap[p].State() == view.ports[p])
      && (forall e :: e in activeReaders.contents ==> e.dartPort in tokensMap && tokensMap[e.dartPort] == e)
      && view.ring == Ports(activeReaders.contents)
    }

    ghost predicate Valid()
      reads this, activeReaders, activeReaders.repr, tokensMap.Values
    {
      Sound() && Inv(view)
    }

    constructor (disable: bool)
      ensures Valid() && view == NONE && disableTokens == disable
      ensures fresh(activeReaders)
    {
      disableTokens := disable;
      activeReaders := new CircularLinkedList();
      tokensMap := map[];
      view := NONE;
    }

    method SetPortAndMask(port: Port, reading: bool)
      requires Valid()
      modifies this, activeReaders, activeReaders.repr, tokensMap.Values
      ensures Valid() && view == L.SetPortAndMask(old(view), port, reading)
    {
      if port !in tokensMap {
        AddPort(port, reading);
      } else {
        assert tokensMap[port] in tokensMap.Values;
        SetReading(tokensMap[port], reading);
      }
      assert Inv(view) by { StepKeepsInv(old(view), SetMask(port, reading), disableTokens); }
      DebugScan();
    }

    /** SetPortAndMask for a new port. */
    method AddPort(port: Port, reading: bool)
      requires Sound() && port !in tokensMap
      modifies this`view, this`tokensMap, activeReaders, activeReaders.repr
      ensures Sound() && view == L.SetPortAndMask(old(view), port, reading)
    {
      var pentry := new PortEntry(port, reading);
      assert forall e :: e in activeReaders.contents ==> e.dartPort != port;
      tokensMap := tokensMap[port := pentry];
      view := Listeners(view.ring, view.ports[port := pentry.State()]);
      assert Sound();
      if pentry.IsReady() {
        var _ := activeReaders.Add(pentry);
        view := view.(ring := view.ring + [port]);
      }
    }

    /** SetPortAndMask for a port that is already registered. */
    method SetReading(pentry: PortEntry, reading: bool)
      requires Sound() && pentry.dartPort in tokensMap && tokensMap[pentry.dartPort] == pentry
      modifies this`view, activeReaders, activeReaders.repr, pentry
      ensures Sound() && view == L.SetPortAndMask(old(view), pentry.dartPort, reading)
      ensures fresh(activeReaders.repr - old(activeReaders.repr))
    {
      var wasReady := pentry.IsReady();
      pentry.isReading := reading;
      var isReady := pentry.IsReady();
      if wasReady && !isReady {
        RemoveReader(pentry);
      } else if !wasReady && isReady {
        var _ := activeReaders.Add(pentry);
      }
      view := L.SetPortAndMask(view, pentry.dartPort, reading);
    }

    /** active_readers_.Remove, with what it means for the port order. */
    method RemoveReader(pentry: PortEntry)
      requires activeReaders.Valid()
      requires forall e :: e in activeReaders.contents && e.dartPort == pentry.dartPort ==> e == pentry
      modifies activeReaders, activeReaders.repr
      ensures activeReaders.Valid()
      ensures Ports(activeReaders.contents) == RemoveFirst(old(Ports(activeReaders.contents)), pentry.dartPort)
      ensures forall e :: e in activeReaders.contents ==> e in old(activeReaders.contents)
      ensures old(Distinct(Ports(activeReaders.contents))) ==> pentry !in activeReaders.contents
      ensures activeReaders.repr == old(activeReaders.repr)
    {
      PortsRemoveFirst(activeReaders.contents, pentry);
      RemoveFirstSubset(activeReaders.contents, pentry);
      if Distinct(Ports(activeReaders.contents)) {
        RemoveFirstDistinct(Ports(activeReaders.contents), pentry.dartPort);
        PortsHas(RemoveFirst(activeReaders.contents, pentry), pentry);
      }
      activeReaders.Remove(pentry);
    }

    /**
     The DEBUG check at the end of SetPortAndMask: once around the ring every reader is ready, the
     count agrees with the map, and the ring is left as it was.
     */
    method DebugScan()
      requires Valid()
      modifies activeReaders
      ensures Valid()
      ensures activeReaders.nodes == old(activeReaders.nodes) && activeReaders.repr == old(activeReaders.repr)
    {
      var readyCount := CountReaders();
      RingCountsReady(view);
      var rest := tokensMap.Keys;
      assert (set p | p in rest && view.ports[p].Ready()) == set p | p in view.ports && view.ports[p].Ready();
      while rest != {}
        invariant rest <= tokensMap.Keys
        invariant readyCount == |set p | p in rest && view.ports[p].Ready()|
        decreases rest
      {
        var p :| p in rest;
        ghost var before := set q | q in rest && view.ports[q].Ready();
        if tokensMap[p].IsReady() {
          readyCount := readyCount - 1;
        }
        rest := rest - {p};
        assert (set q | q in rest && view.ports[q].Ready()) == before - {p};
      }
      assert readyCount == 0;
    }

    /** The first half of the check: rotate the ring until its head comes round again. */
    method CountReaders() returns (readyCount: nat)
      requires Valid()
      modifies activeReaders
      ensures Valid()
      ensures activeReaders.nodes == old(activeReaders.nodes) && activeReaders.repr == old(activeReaders.repr)
      ensures readyCount == |view.ring|
    {
      ghost var nodes, was := activeReaders.nodes, activeReaders.contents;
      readyCount := 0;
      if activeReaders.HasHead() {
        var root := activeReaders.Head();
        var current := root;
        while true
          invariant activeReaders.Valid() && activeReaders.repr == old(activeReaders.repr)
          invariant 0 <= readyCount < |was| == |nodes|
          invariant activeReaders.nodes == nodes[readyCount..] + nodes[..readyCount]
          invariant activeReaders.contents == was[readyCount..] + was[..readyCount]
          invariant current == was[readyCount]
          decreases |was| - readyCount
        {
          assert view.ring[readyCount] == current.dartPort && view.ring[readyCount] in view.ring;
          assert current.IsReady();
          readyCount := readyCount + 1;
          activeReaders.Rotate();
          RotatedOn(was, readyCount - 1);
          RotatedOn(nodes, readyCount - 1);
          current := activeReaders.Head();
          if current == root {
            break;
          }
        }
      }
    }

    method RemovePort(port: Port)
      requires Valid()
      modifies this, activeReaders, activeReaders.repr
      ensures Valid() && view == L.RemovePort(old(view), port)
    {
      if port in tokensMap {
        var pentry := tokensMap[port];
        if pentry.IsReady() {
          RemoveReader(pentry);
        }
        tokensMap := tokensMap - {port};
      }
      view := L.RemovePort(view, port);
      assert Inv(view) by { StepKeepsInv(old(view), Remove(port), disableTokens); }
    }

    method RemoveAllPorts()
      requires Valid()
      modifies this, activeReaders, activeReaders.repr
      ensures Valid() && view == NONE
    {
      activeReaders.RemoveAll();
      tokensMap := map[];
      view := NONE;
    }

    method NextNotifyDartPort() returns (port: Port)
      requires Valid()
      modifies this`view, activeReaders, activeReaders.repr, tokensMap.Values
      ensures Valid() && port == Chosen(old(view)) && view == NextNotify(old(view), disableTokens)
    {
      if activeReaders.HasHead() {
        var pentry := activeReaders.Head();
        assert pentry in activeReaders.contents;
        PortsRotated(activeReaders.contents);
        if !disableTokens {
          pentry.tokenCount := pentry.tokenCount - 1;
        }
        if pentry.tokenCount <= 0 {
          activeReaders.RemoveHead();
        } else {
          activeReaders.Rotate();
        }
        view := NextNotify(view, disableTokens);
        assert Inv(view) by { StepKeepsInv(old(view), Next, disableTokens); }
        return pentry.dartPort;
      }
      return 0;
    }

    /** Posts to every port once, in the map's unspecified order; `posts` are the ports posted to. */
    method NotifyAllDartPorts() returns (posts: seq<Port>)
      requires Valid()
      modifies this`view, activeReaders, activeReaders.repr, tokensMap.Values
      ensures Valid() && view == NotifyAll(old(view), disableTokens)
      ensures Distinct(posts) && forall p :: p in posts <==> p in old(view).ports
    {
      PartlyEnds(view, disableTokens);
      assert Inv(NotifyAll(view, disableTokens)) by { StepKeepsInv(view, Broadcast, disableTokens); }
      posts := NotifyEach();
    }

    /** The loop of NotifyAllDartPorts. */
    method NotifyEach() returns (posts: seq<Port>)
      requires Sound() && Distinct(view.ring) && view == Partly(view, view.ports.Keys, disableTokens)
      modifies this`view, activeReaders, activeReaders.repr, tokensMap.Values
      ensures Sound() && view == Partly(old(view), {}, disableTokens)
      ensures Distinct(posts) && forall p :: p in posts <==> p in old(view).ports
    {
      ghost var was := view;
      posts := [];
      var rest := tokensMap.Keys;
      while rest != {}
        invariant Sound() && rest <= tokensMap.Keys
        invariant activeReaders.repr == old(activeReaders.repr)
        invariant Distinct(posts) && forall p :: p in posts <==> p in tokensMap && p !in rest
        invariant view == Partly(was, rest, disableTokens)
        decreases rest
      {
        var p :| p in rest;
        DistinctSnoc(posts, p);
        posts := posts + [p];
        assert tokensMap[p] in tokensMap.Values;
        NotifyOne(tokensMap[p]);
        PartlyNext(was, rest, p, disableTokens);
        rest := rest - {p};
      }
    }

    /** The loop body of NotifyAllDartPorts for one entry. */
    method NotifyOne(pentry: PortEntry)
      requires Sound() && pentry.dartPort in tokensMap && tokensMap[pentry.dartPort] == pentry
      modifies this`view, activeReaders, activeReaders.repr, pentry
      ensures Sound()
      ensures activeReaders.repr == old(activeReaders.repr)
      ensures view == SpendOne(old(view), pentry.dartPort, disableTokens)
    {
      var wasReady := pentry.IsReady();
      if !disableTokens {
        pentry.tokenCount := pentry.tokenCount - 1;
      }
      view := view.(ports := view.ports[pentry.dartPort := pentry.State()]);
      if wasReady && pentry.tokenCount <= 0 {
        RemoveReader(pentry);
        view := view.(ring := RemoveFirst(view.ring, pentry.dartPort));
      }
    }

    /** The source asserts that the port is registered and that it ends with at most TOKENS tokens. */
    method ReturnTokens(port: Port, count: nat)
      requires Valid() && port in view.ports
      requires !disableTokens ==> view.ports[port].tokens + count <= TOKENS
      modifies this`view, activeReaders, activeReaders.repr, tokensMap.Values
      ensures Valid() && view == L.ReturnTokens(old(view), port, count, disableTokens)
    {
      assert tokensMap[port] in tokensMap.Values;
      AddTokens(tokensMap[port], count);
      assert Inv(view) by { StepKeepsInv(old(view), Return(port, count), disableTokens); }
    }

    method AddTokens(pentry: PortEntry, count: nat)
      requires Sound() && pentry.dartPort in tokensMap && tokensMap[pentry.dartPort] == pentry
      modifies this`view, activeReaders, activeReaders.repr, pentry
      ensures Sound() && view == L.ReturnTokens(old(view), pentry.dartPort, count, disableTokens)
    {
      var wasReady := pentry.IsReady();
      if !disableTokens {
        pentry.tokenCount := pentry.tokenCount + count;
      }
      var isReady := pentry.tokenCount > 0 && pentry.IsReady();
      if !wasReady && isReady {
        var _ := activeReaders.Add(pentry);
      }
      view := L.ReturnTokens(view, pentry.dartPort, count, disableTokens);
    }

    method EventMask() returns (mask: int)
      requires Valid()
      ensures mask == Mask(view)
      ensures mask != 0 <==> exists p :: ReadyPort(view.ports, p)
    {
      if activeReaders.HasHead() {
        assert view.ring[0] in view.ring;
        return 1;
      }
      return 0;
    }
  }

  lemma {:induction false} RemoveFirstSubset<T>(s: seq<T>, x: T)
    ensures forall y :: y in RemoveFirst(s, x) ==> y in s
  {
    if s != [] { RemoveFirstSubset(s[1..], x); }
  }
}
