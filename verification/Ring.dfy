/** The doubly linked ring of ready listeners, as pointers, refining a sequence. */
module Ring {

  class Entry<T> {
    const t: T
    var next: Entry?<T>
    var prev: Entry?<T>

    constructor (t: T)
      ensures this.t == t
    {
      this.t := t;
      next, prev := null, null;
    }
  }

  /** `s` without its first occurrence of `x`. */
  function RemoveFirst<T(==)>(s: seq<T>, x: T): seq<T> {
    if s == [] then [] else if s[0] == x then s[1..] else [s[0]] + RemoveFirst(s[1..], x)
  }

  /** The first element moved to the end. */
  function Rotated<T>(s: seq<T>): seq<T> {
    if s == [] then [] else s[1..] + [s[0]]
  }

  lemma {:induction false} RemoveFirstAt<T>(s: seq<T>, x: T, k: nat)
    requires k < |s| && s[k] == x && x !in s[..k]
    ensures RemoveFirst(s, x) == s[..k] + s[k + 1..]
  {
    if k > 0 {
      assert s[..k][0] == s[0];
      assert s[1..][..k - 1] == s[..k][1..];
      RemoveFirstAt(s[1..], x, k - 1);
      assert s[1..][k..] == s[k + 1..];
    }
  }

  lemma {:induction false} RemoveFirstAbsent<T>(s: seq<T>, x: T)
    requires x !in s
    ensures RemoveFirst(s, x) == s
  {
    if s != [] {
      RemoveFirstAbsent(s[1..], x);
    }
  }

  ghost predicate Distinct<T>(s: seq<T>) {
    forall i, j :: 0 <= i < j < |s| ==> s[i] != s[j]
  }

  lemma DistinctCons<T>(x: T, s: seq<T>)
    ensures Distinct([x] + s) <==> Distinct(s) && x !in s
  {
    var t := [x] + s;
    assert s == t[1..];
    if Distinct(t) {
      assert forall i :: 0 <= i < |s| ==> s[i] == t[i + 1];
    }
    assert t[0] == x && forall i :: 0 < i < |t| ==> t[i] == s[i - 1];
  }

  lemma DistinctSnoc<T>(s: seq<T>, x: T)
    ensures Distinct(s + [x]) <==> Distinct(s) && x !in s
  {
    var t := s + [x];
    assert t[|s|] == x && forall i :: 0 <= i < |s| ==> t[i] == s[i];
  }

  /** The ring successor of position `i` among `n`. */
  ghost function Succ(i: int, n: int): int {
    if i + 1 == n then 0 else i + 1
  }

  class CircularLinkedList<T(==)> {
    var head: Entry?<T>
    /** The live entries, in ring order from `head`, and what they hold. */
    ghost var nodes: seq<Entry<T>>
    ghost var contents: seq<T>
    ghost var repr: set<Entry<T>>

    /** Position `i` holds its element and is linked both ways to its ring successor. */
    ghost predicate At(i: int)
      requires |nodes| == |contents|
      reads this, repr
    {
      0 <= i < |nodes| ==>
        && nodes[i] in repr && nodes[Succ(i, |nodes|)] in repr
        && nodes[i].t == contents[i]
        && nodes[i].next == nodes[Succ(i, |nodes|)]
        && nodes[Succ(i, |nodes|)].prev == nodes[i]
    }

    /** One cycle through exactly `nodes`, with `next` and `prev` mutually inverse. */
    ghost predicate Valid()
      reads this, repr
    {
      && |nodes| == |contents|
      && head == (if nodes == [] then null else nodes[0])
      && Distinct(nodes)
      && forall i :: At(i)
    }

    constructor ()
      ensures Valid() && contents == [] && repr == {}
    {
      head, nodes, contents, repr := null, [], [], {};
    }

    predicate HasHead()
      reads this, repr
      requires Valid()
      ensures HasHead() <==> contents != []
    {
      head != null
    }

    function Head(): (t: T)
      reads this, repr
      requires Valid() && contents != []
      ensures t == contents[0]
    {
      assert At(0);
      head.t
    }

    method Add(t: T) returns (wasEmpty: bool)
      requires Valid()
      modifies this, repr
      ensures Valid() && contents == old(contents) + [t]
      ensures wasEmpty <==> old(contents) == []
      ensures fresh(repr - old(repr))
    {
      var e := new Entry(t);
      ghost var n := |nodes|;
      wasEmpty := head == null;
      if wasEmpty {
        e.next, e.prev := e, e;
        head := e;
      } else {
        assert At(n - 1);
        e.prev := head.prev;
        e.next := head;
        e.prev.next := e;
        head.prev := e;
      }
      nodes, contents, repr := nodes + [e], contents + [t], repr + {e};
      forall i ensures At(i) {
        if 0 <= i < n - 1 { assert old(At(i)); }
      }
    }

    method RemoveHead()
      requires Valid() && contents != []
      modifies this, repr
      ensures Valid() && contents == old(contents)[1..]
      ensures nodes == old(nodes)[1..] && repr == old(repr)
    {
      var e := head;
      ghost var n := |nodes|;
      assert At(0) && At(n - 1);
      if e.next == e {
        head := null;
      } else {
        e.prev.next := e.next;
        e.next.prev := e.prev;
        head := e.next;
      }
      nodes, contents := nodes[1..], contents[1..];
      forall i ensures At(i) {
        if 0 <= i < n - 1 { assert old(At(i + 1)); }
      }
    }

    method Remove(item: T)
      requires Valid()
      modifies this, repr
      ensures Valid() && contents == RemoveFirst(old(contents), item)
      ensures repr == old(repr)
    {
      if head == null {
        return;
      }
      assert At(0);
      if head == head.next {
        if head.t == item {
          head, nodes, contents := null, [], [];
        }
        return;
      }
      var current: Entry<T> := head;
      ghost var k := 0;
      // The source's do-while: the test against head_ follows the first step.
      while true
        invariant Valid() && repr == old(repr) && contents == old(contents) && |nodes| > 1
        invariant 0 <= k < |nodes| && current == nodes[k]
        invariant forall j :: 0 <= j < k ==> contents[j] != item
        decreases |nodes| - k
      {
        assert At(k);
        if current.t == item {
          RemoveFirstAt(contents, item, k);
          UnlinkAt(current, k);
          return;
        }
        current := current.next;
        if current == head {
          RemoveFirstAbsent(contents, item);
          return;
        }
        k := k + 1;
      }
    }

    /** The relinking done by Remove once the entry is found. */
    method UnlinkAt(current: Entry<T>, ghost k: nat)
      requires Valid() && |nodes| > 1 && k < |nodes| && current == nodes[k]
      modifies this, repr
      ensures Valid() && repr == old(repr)
      ensures contents == old(contents)[..k] + old(contents)[k + 1..]
    {
      ghost var n, p := |nodes|, if k == 0 then |nodes| - 1 else k - 1;
      assert At(k) && At(p);
      var next, prev := current.next, current.prev;
      prev.next := next;
      next.prev := prev;
      if current == head {
        head := head.next;
      }
      ghost var was := nodes;
      nodes, contents := nodes[..k] + nodes[k + 1..], contents[..k] + contents[k + 1..];
      forall i ensures At(i) {
        if 0 <= i < n - 1 {
          ghost var i' := if i < k then i else i + 1;
          assert old(At(i')) && was[i'] == nodes[i];
          if i' != p { assert was[Succ(i', n)] == nodes[Succ(i, n - 1)]; }
        }
      }
    }

    method RemoveAll()
      requires Valid()
      modifies this, repr
      ensures Valid() && contents == [] && repr == old(repr)
    {
      while HasHead()
        invariant Valid() && repr == old(repr)
        decreases |contents|
      {
        RemoveHead();
      }
    }

    method Rotate()
      requires Valid()
      modifies this
      ensures Valid() && contents == Rotated(old(contents))
      ensures nodes == Rotated(old(nodes)) && repr == old(repr)
    {
      if head != null {
        ghost var n := |nodes|;
        assert At(0);
        head := head.next;
        nodes, contents := Rotated(nodes), Rotated(contents);
        forall i ensures At(i) {
          if 0 <= i < n { assert old(At(Succ(i, n))); }
        }
      }
    }
  }
}
