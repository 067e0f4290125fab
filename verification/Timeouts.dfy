/** The timer list: a linked list of deadlines with a cached pointer to the next one due. */
module Timeouts {
  import opened Basics
  import opened Ring

  datatype Deadline = Deadline(port: Port, at: int)

  /** The list as a map from ports to deadlines. */
  function AsMap(s: seq<Deadline>): map<Port, int> {
    if s == [] then map[] else AsMap(s[1..])[s[0].port := s[0].at]
  }

  ghost predicate UniquePorts(s: seq<Deadline>) {
    s == [] || (s[0].port !in AsMap(s[1..]) && UniquePorts(s[1..]))
  }

  /** Removes the first entry of `port`, or sets its time. */
  function Change(s: seq<Deadline>, port: Port, time: int): seq<Deadline> {
    if s == [] then []
    else if s[0].port != port then [s[0]] + Change(s[1..], port, time)
    else if time < 0 then s[1..]
    else [Deadline(port, time)] + s[1..]
  }

  /** UpdateTimeout: a negative time removes the port, any other time sets it; new ports go in front. */
  function Update(s: seq<Deadline>, port: Port, time: int): seq<Deadline> {
    if port in AsMap(s) then Change(s, port, time)
    else if time < 0 then s
    else [Deadline(port, time)] + s
  }

  /** `k` is the first of the entries with the smallest deadline. */
  ghost predicate IsFirstMin(s: seq<Deadline>, k: int) {
    && 0 <= k < |s|
    && (forall i :: 0 <= i < |s| ==> s[k].at <= s[i].at)
    && (forall i :: 0 <= i < k ==> s[k].at < s[i].at)
  }

  lemma {:induction false} ChangeRefinesMap(s: seq<Deadline>, port: Port, time: int)
    requires UniquePorts(s) && port in AsMap(s)
    ensures UniquePorts(Change(s, port, time))
    ensures AsMap(Change(s, port, time)) == if time < 0 then AsMap(s) - {port} else AsMap(s)[port := time]
  {
    if s[0].port != port {
      ChangeRefinesMap(s[1..], port, time);
      assert Change(s, port, time)[1..] == Change(s[1..], port, time);
    } else if time < 0 {
      assert AsMap(s[1..]) == AsMap(s) - {port};
    } else {
      assert Change(s, port, time)[1..] == s[1..];
    }
  }

  /** UpdateTimeout keeps ports unique and updates exactly one key of the map. */
  lemma UpdateRefinesMap(s: seq<Deadline>, port: Port, time: int)
    requires UniquePorts(s)
    ensures UniquePorts(Update(s, port, time))
    ensures AsMap(Update(s, port, time)) == if time < 0 then AsMap(s) - {port} else AsMap(s)[port := time]
  {
    if port in AsMap(s) {
      ChangeRefinesMap(s, port, time);
    } else if time >= 0 {
      assert Update(s, port, time)[1..] == s;
    }
  }

  ghost predicate Nonnegative(s: seq<Deadline>) {
    forall i :: 0 <= i < |s| ==> s[i].at >= 0
  }

  lemma {:induction false} ChangeNonnegative(s: seq<Deadline>, port: Port, time: int)
    requires Nonnegative(s)
    ensures Nonnegative(Change(s, port, time))
  {
    if s != [] && s[0].port != port { ChangeNonnegative(s[1..], port, time); }
  }

  /** A deadline in the list is never negative. */
  lemma UpdateNonnegative(s: seq<Deadline>, port: Port, time: int)
    requires Nonnegative(s)
    ensures Nonnegative(Update(s, port, time))
  {
    ChangeNonnegative(s, port, time);
  }

  /** Change acts at the first place that holds the port. */
  lemma {:induction false} ChangeIsAt(s: seq<Deadline>, k: nat, time: int)
    requires k < |s| && forall i :: 0 <= i < k ==> s[i].port != s[k].port
    ensures s[k].port in AsMap(s)
    ensures Change(s, s[k].port, time) == if time < 0 then s[..k] + s[k + 1..] else s[k := Deadline(s[k].port, time)]
  {
    if k > 0 {
      var t := s[1..];
      ChangeIsAt(t, k - 1, time);
      assert s[..k] == [s[0]] + t[..k - 1] && s[k + 1..] == t[k..];
      assert s[k := Deadline(s[k].port, time)] == [s[0]] + t[k - 1 := Deadline(s[k].port, time)];
    }
  }

  lemma {:induction false} Absent(s: seq<Deadline>, port: Port)
    requires forall i :: 0 <= i < |s| ==> s[i].port != port
    ensures port !in AsMap(s)
  {
    if s != [] { Absent(s[1..], port); }
  }

  lemma {:induction false} PortsDiffer(s: seq<Deadline>, i: nat, j: nat)
    requires UniquePorts(s) && i < j < |s|
    ensures s[i].port != s[j].port
  {
    if i > 0 {
      PortsDiffer(s[1..], i - 1, j - 1);
    } else if s[0].port == s[j].port {
      assert s[1..][j - 1] == s[j];
      KeyAt(s[1..], j - 1);
    }
  }

  lemma {:induction false} KeyAt(s: seq<Deadline>, k: nat)
    requires k < |s|
    ensures s[k].port in AsMap(s)
  {
    if k > 0 { KeyAt(s[1..], k - 1); }
  }

  // ----- Draining -----

  function FirstMin(s: seq<Deadline>): (k: nat)
    requires s != []
    ensures IsFirstMin(s, k)
  {
    if |s| == 1 then 0 else
      var k := FirstMin(s[1..]);
      if s[0].at <= s[1..][k].at then 0 else k + 1
  }

  lemma FirstMinUnique(s: seq<Deadline>, k: int)
    requires IsFirstMin(s, k)
    ensures k == FirstMin(s)
  {
    var f := FirstMin(s);
  }

  lemma RemoveAt(s: seq<Deadline>, k: nat)
    requires UniquePorts(s) && k < |s|
    ensures Update(s, s[k].port, -1) == s[..k] + s[k + 1..]
    ensures UniquePorts(s[..k] + s[k + 1..])
  {
    forall i | 0 <= i < k ensures s[i].port != s[k].port {
      PortsDiffer(s, i, k);
    }
    ChangeIsAt(s, k, -1);
    UpdateRefinesMap(s, s[k].port, -1);
  }

  /** The deadlines in the order in which repeated RemoveCurrent takes them. */
  ghost function Drain(s: seq<Deadline>): seq<Deadline>
    requires UniquePorts(s)
    decreases |s|
  {
    if s == [] then [] else
      var k := FirstMin(s);
      RemoveAt(s, k);
      [s[k]] + Drain(s[..k] + s[k + 1..])
  }

  ghost predicate Sorted(s: seq<Deadline>) {
    forall i, j :: 0 <= i < j < |s| ==> s[i].at <= s[j].at
  }

  lemma SortedCons(d: Deadline, s: seq<Deadline>, all: multiset<Deadline>)
    requires Sorted(s) && multiset(s) == all && forall e :: e in all ==> d.at <= e.at
    ensures Sorted([d] + s)
  {
    forall j | 0 <= j < |s| ensures d.at <= s[j].at {
      assert s[j] in multiset(s);
    }
  }

  /** Draining serves every deadline once, in nondecreasing order. */
  lemma {:induction false} DrainSorts(s: seq<Deadline>)
    requires UniquePorts(s)
    ensures multiset(Drain(s)) == multiset(s) && Sorted(Drain(s))
    decreases |s|
  {
    if s != [] {
      var k := FirstMin(s);
      RemoveAt(s, k);
      var rest := s[..k] + s[k + 1..];
      DrainSorts(rest);
      Without(s, k);
      assert multiset(Drain(s)) == multiset{s[k]} + multiset(Drain(rest));
      SortedCons(s[k], Drain(rest), multiset(rest));
    }
  }

  lemma Without(s: seq<Deadline>, k: nat)
    requires k < |s|
    ensures multiset(s) == multiset{s[k]} + multiset(s[..k] + s[k + 1..])
    ensures IsFirstMin(s, k) ==> forall e: Deadline :: e in multiset(s[..k] + s[k + 1..]) ==> s[k].at <= e.at
  {
    assert s == s[..k] + [s[k]] + s[k + 1..];
    if IsFirstMin(s, k) {
      var rest := s[..k] + s[k + 1..];
      forall e: Deadline | e in multiset(rest) ensures s[k].at <= e.at {
        assert e in rest;
        var i :| 0 <= i < |rest| && rest[i] == e;
        assert e == if i < k then s[i] else s[i + 1];
      }
    }
  }

  lemma DrainStep(s: seq<Deadline>)
    requires UniquePorts(s) && s != []
    ensures var rest := Update(s, s[FirstMin(s)].port, -1);
      |rest| < |s| && UniquePorts(rest) && Drain(s) == [s[FirstMin(s)]] + Drain(rest)
  {
    var k := FirstMin(s);
    RemoveAt(s, k);
    assert Drain(s) == [s[k]] + Drain(s[..k] + s[k + 1..]);
  }

  // ----- The pointers -----

  class Timeout {
    const port: Port
    var timeout: int
    var next: Timeout?

    constructor (port: Port, timeout: int, next: Timeout?)
      ensures this.port == port && this.timeout == timeout && this.next == next
    {
      this.port, this.timeout, this.next := port, timeout, next;
    }
  }

  class TimeoutQueue {
    var nextTimeout: Timeout?
    var timeouts: Timeout?
    ghost var nodes: seq<Timeout>
    ghost var view: seq<Deadline>
    ghost var repr: set<Timeout>

    ghost predicate At(i: int)
      requires |nodes| == |view|
      reads this, repr
    {
      0 <= i < |nodes| ==>
        && nodes[i] in repr
        && Deadline(nodes[i].port, nodes[i].timeout) == view[i]
        && nodes[i].next == (if i + 1 < |nodes| then nodes[i + 1] else null)
    }

    /** The list represents `view`; the cache may still be stale. */
    ghost predicate Linked()
      reads this, repr
    {
      && |nodes| == |view|
      && timeouts == (if nodes == [] then null else nodes[0])
      && Distinct(nodes) && UniquePorts(view)
      && forall i :: At(i)
    }

    ghost predicate Valid()
      reads this, repr
    {
      && Linked()
      && (if view == [] then nextTimeout == null
          else exists k :: IsFirstMin(view, k) && nextTimeout == nodes[k])
    }

    constructor ()
      ensures Valid() && view == [] && repr == {}
    {
      nextTimeout, timeouts, nodes, view, repr := null, null, [], [], {};
    }

    predicate HasTimeout()
      requires Valid()
      reads this, repr
      ensures HasTimeout() <==> view != []
    {
      nextTimeout != null
    }

    method Current() returns (port: Port, timeout: int)
      requires Valid() && view != []
      ensures Deadline(port, timeout) == view[FirstMin(view)]
    {
      ghost var k :| IsFirstMin(view, k) && nextTimeout == nodes[k];
      FirstMinUnique(view, k);
      assert At(k);
      port, timeout := nextTimeout.port, nextTimeout.timeout;
    }

    method UpdateTimeout(port: Port, timeout: int)
      requires Valid()
      modifies this, repr
      ensures Valid() && view == Update(old(view), port, timeout)
      ensures fresh(repr - old(repr))
    {
      var last: Timeout? := null;
      var current := timeouts;
      ghost var k := 0;
      while current != null && current.port != port
        invariant 0 <= k <= |nodes| && current == (if k == |nodes| then null else nodes[k])
        invariant last == (if k == 0 then null else nodes[k - 1])
        invariant forall i :: 0 <= i < k ==> view[i].port != port
        invariant Linked()
        decreases |nodes| - k
      {
        assert At(k);
        last := current;
        current := current.next;
        k := k + 1;
      }
      UpdateRefinesMap(view, port, timeout);
      if current != null {
        assert At(k);
        ChangeIsAt(view, k, timeout);
        if timeout < 0 {
          Unlink(last, current, k);
        } else {
          SetTime(current, timeout, k);
        }
      } else {
        Absent(view, port);
        if timeout >= 0 {
          PushFront(port, timeout);
        }
      }
      FindNext();
    }

    /** The port was not in the list: put it in front. */
    method PushFront(port: Port, timeout: int)
      requires Linked() && UniquePorts([Deadline(port, timeout)] + view)
      modifies this
      ensures Linked() && view == [Deadline(port, timeout)] + old(view)
      ensures fresh(repr - old(repr))
    {
      var head := new Timeout(port, timeout, timeouts);
      timeouts, nodes, view, repr := head, [head] + nodes, [Deadline(port, timeout)] + view, repr + {head};
      forall i ensures At(i) { assert old(At(i - 1)); }
    }

    /** The entry was found and has to go. */
    method Unlink(last: Timeout?, current: Timeout, ghost k: nat)
      requires Linked() && k < |nodes| && current == nodes[k]
      requires last == if k == 0 then null else nodes[k - 1]
      requires UniquePorts(view[..k] + view[k + 1..])
      modifies this, repr
      ensures Linked() && repr == old(repr) && view == old(view)[..k] + old(view)[k + 1..]
    {
      assert At(k) && At(k - 1);
      if last != null {
        last.next := current.next;
      } else {
        timeouts := current.next;
      }
      nodes, view := nodes[..k] + nodes[k + 1..], view[..k] + view[k + 1..];
      forall i ensures At(i) {
        assert if i < k then old(At(i)) else old(At(i + 1));
      }
    }

    /** The entry was found and gets a new time. */
    method SetTime(current: Timeout, timeout: int, ghost k: nat)
      requires Linked() && k < |nodes| && current == nodes[k]
      requires UniquePorts(view[k := Deadline(current.port, timeout)])
      modifies this, repr
      ensures Linked() && repr == old(repr) && view == old(view)[k := Deadline(current.port, timeout)]
    {
      assert At(k);
      current.timeout := timeout;
      view := view[k := Deadline(current.port, timeout)];
      forall i ensures At(i) { assert old(At(i)); }
    }

    /** Clear the cache and look for the next timeout. */
    method FindNext()
      requires Linked()
      modifies this`nextTimeout
      ensures Valid()
    {
      nextTimeout := null;
      forall i ensures At(i) { assert old(At(i)); }
      var current := timeouts;
      ghost var k, best := 0, 0;
      while current != null
        invariant 0 <= k <= |nodes| && current == (if k == |nodes| then null else nodes[k])
        invariant if k == 0 then nextTimeout == null else IsFirstMin(view[..k], best) && nextTimeout == nodes[best]
        invariant Linked()
        decreases |nodes| - k
      {
        assert At(k) && At(best);
        if nextTimeout == null || current.timeout < nextTimeout.timeout {
          nextTimeout, best := current, k;
        }
        current := current.next;
        k := k + 1;
        assert forall i :: At(i) by { forall i ensures At(i) { assert old(At(i)); } }
      }
      assert view[..k] == view;
    }

    method RemoveCurrent()
      requires Valid() && view != []
      modifies this, repr
      ensures Valid() && view == Update(old(view), old(view)[FirstMin(old(view))].port, -1)
      ensures fresh(repr - old(repr))
    {
      var port, _ := Current();
      UpdateTimeout(port, -1);
    }

    /** The destructor's loop, with the order in which the deadlines leave the list. */
    method RemoveEverything() returns (served: seq<Deadline>)
      requires Valid()
      modifies this, repr
      ensures Valid() && view == [] && served == Drain(old(view))
    {
      served := [];
      while HasTimeout()
        invariant Valid() && fresh(repr - old(repr))
        invariant served + Drain(view) == Drain(old(view))
        decreases |view|
      {
        var port, time := Current();
        DrainStep(view);
        served := served + [Deadline(port, time)];
        RemoveCurrent();
      }
    }
  }
}
