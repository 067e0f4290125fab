/**
 The message codec of dart.js: object graphs, possibly cyclic, are flattened with numbered bodies
 and back-references; the decoder rebuilds trees and refuses back-references.
 */
module MessageCodec {

  type Ref = nat

  datatype Primitive = Str(s: string) | Num(n: real) | Bool(b: bool)

  datatype Value =
    | Undefined
    | Null
    | Prim(p: Primitive)
    | Obj(r: Ref)
    | LocalPort(receiver: nat)
    | DartPort(isolate: int, port: int)

  /** Arrays have elements; any other object has own property names, one for each value. */
  datatype Shape = List | Map(keys: seq<string>)

  datatype Object = Object(shape: Shape, values: seq<Value>)

  type Heap = map<Ref, Object>

  ghost predicate Closed(h: Heap, v: Value) {
    v.Obj? ==> v.r in h
  }

  ghost predicate WellFormed(h: Heap) {
    forall r :: r in h ==>
      && (forall i :: 0 <= i < |h[r].values| ==> Closed(h, h[r].values[i]))
      && (h[r].shape.Map? ==> |h[r].shape.keys| == |h[r].values|)
  }

  /** ['ref', id], ['list', id, values] or ['map', id, keys, values], ['sendport', ...]. */
  datatype Wire =
    | WNull
    | WPrim(p: Primitive)
    | WRef(id: nat)
    | WBody(shape: Shape, id: nat, values: seq<Wire>)
    | WNativePort(receiver: nat)
    | WDartPort(isolate: int, port: int)

  // ----- Serialization -----

  ghost function Unvisited(h: Heap, visited: seq<Ref>): set<Ref> {
    h.Keys - set r | r in visited
  }

  lemma VisitShrinks(h: Heap, visited: seq<Ref>, r: Ref)
    requires r in h && r !in visited
    ensures |Unvisited(h, visited + [r])| < |Unvisited(h, visited)|
  {
    assert r in Unvisited(h, visited);
    assert Unvisited(h, visited + [r]) == Unvisited(h, visited) - {r};
  }

  lemma VisitMonotone(h: Heap, visited: seq<Ref>, more: seq<Ref>)
    requires visited <= more
    ensures |Unvisited(h, more)| <= |Unvisited(h, visited)|
  {
    forall r | r in visited ensures r in more {
      var i :| 0 <= i < |visited| && visited[i] == r;
      assert more[i] == r;
    }
    CardinalityMonotone(Unvisited(h, more), Unvisited(h, visited));
  }

  lemma CardinalityMonotone<T>(a: set<T>, b: set<T>)
    requires a <= b
    ensures |a| <= |b|
  {
    assert b == a + (b - a);
  }

  function IndexOf(visited: seq<Ref>, r: Ref): (i: nat)
    ensures i <= |visited| && (i < |visited| <==> r in visited)
    ensures i < |visited| ==> visited[i] == r
  {
    if visited == [] || visited[0] == r then 0 else 1 + IndexOf(visited[1..], r)
  }

  /** doSerialize: the wire form of a value and the list of visited objects afterwards. */
  function Ser(h: Heap, v: Value, visited: seq<Ref>): (res: (Wire, seq<Ref>))
    requires WellFormed(h) && Closed(h, v)
    ensures visited <= res.1
    decreases |Unvisited(h, visited)|, 0
  {
    match v
    case Undefined => (WNull, visited)
    case Null => (WNull, visited)
    case Prim(p) => (WPrim(p), visited)
    case LocalPort(id) => (WNativePort(id), visited)
    case DartPort(isolate, port) => (WDartPort(isolate, port), visited)
    case Obj(r) =>
      if r in visited then (WRef(IndexOf(visited, r)), visited)
      else
        VisitShrinks(h, visited, r);
        var (ws, visited') := SerAll(h, h[r].values, visited + [r]);
        (WBody(h[r].shape, |visited|, ws), visited')
  }

  function SerAll(h: Heap, vs: seq<Value>, visited: seq<Ref>): (res: (seq<Wire>, seq<Ref>))
    requires WellFormed(h) && forall i :: 0 <= i < |vs| ==> Closed(h, vs[i])
    ensures visited <= res.1 && |res.0| == |vs|
    decreases |Unvisited(h, visited)|, |vs|
  {
    if vs == [] then ([], visited)
    else
      var (w, visited1) := Ser(h, vs[0], visited);
      VisitMonotone(h, visited, visited1);
      var (ws, visited2) := SerAll(h, vs[1..], visited1);
      ([w] + ws, visited2)
  }

  function Serialize(h: Heap, v: Value): Wire
    requires WellFormed(h) && Closed(h, v)
  {
    Ser(h, v, []).0
  }

  // ----- Numbering -----

  /** Bodies are numbered n, n + 1, ... in preorder and references point at numbers already given; the next number. */
  function Numbered(w: Wire, n: nat): (next: int)
    ensures next == -1 || next >= n
    decreases w, 0
  {
    match w
    case WRef(id) => if id < n then n else -1
    case WBody(_, id, values) => if id == n then NumberedAll(values, n + 1) else -1
    case _ => n
  }

  function NumberedAll(ws: seq<Wire>, n: nat): (next: int)
    ensures next == -1 || next >= n
    decreases ws, 1
  {
    if ws == [] then n
    else
      var next := Numbered(ws[0], n);
      if next == -1 then -1 else NumberedAll(ws[1..], next)
  }

  /** Objects are numbered by first visit, each body is sent once, and references are to numbers already given. */
  lemma {:induction false} SerNumbered(h: Heap, v: Value, visited: seq<Ref>)
    requires WellFormed(h) && Closed(h, v)
    ensures Numbered(Ser(h, v, visited).0, |visited|) == |Ser(h, v, visited).1|
    decreases |Unvisited(h, visited)|, 0
  {
    if v.Obj? && v.r !in visited {
      VisitShrinks(h, visited, v.r);
      SerAllNumbered(h, h[v.r].values, visited + [v.r]);
    }
  }

  lemma {:induction false} SerAllNumbered(h: Heap, vs: seq<Value>, visited: seq<Ref>)
    requires WellFormed(h) && forall i :: 0 <= i < |vs| ==> Closed(h, vs[i])
    ensures NumberedAll(SerAll(h, vs, visited).0, |visited|) == |SerAll(h, vs, visited).1|
    decreases |Unvisited(h, visited)|, |vs|
  {
    if vs != [] {
      var visited1 := Ser(h, vs[0], visited).1;
      VisitMonotone(h, visited, visited1);
      SerNumbered(h, vs[0], visited);
      SerAllNumbered(h, vs[1..], visited1);
      assert SerAll(h, vs, visited).0[1..] == SerAll(h, vs[1..], visited1).0;
    }
  }

  // ----- The wire form determines the graph -----

  /** `w` describes `v`, with `table` giving the object of each number. */
  ghost predicate Denotes(h: Heap, table: seq<Ref>, v: Value, w: Wire)
    decreases w
  {
    match v
    case Undefined => w == WNull
    case Null => w == WNull
    case Prim(p) => w == WPrim(p)
    case LocalPort(id) => w == WNativePort(id)
    case DartPort(isolate, port) => w == WDartPort(isolate, port)
    case Obj(r) =>
      && (w.WRef? || w.WBody?) && w.id < |table| && table[w.id] == r && r in h
      && (w.WBody? ==> w.shape == h[r].shape && |w.values| == |h[r].values| &&
                       forall i :: 0 <= i < |w.values| ==> Denotes(h, table, h[r].values[i], w.values[i]))
  }

  lemma {:induction false} DenotesMore(h: Heap, table: seq<Ref>, more: seq<Ref>, v: Value, w: Wire)
    requires table <= more && Denotes(h, table, v, w)
    ensures Denotes(h, more, v, w)
    decreases w
  {
    if v.Obj? && w.WBody? {
      forall i | 0 <= i < |w.values| ensures Denotes(h, more, h[v.r].values[i], w.values[i]) {
        DenotesMore(h, table, more, h[v.r].values[i], w.values[i]);
      }
    }
  }

  lemma {:induction false} SerDenotes(h: Heap, v: Value, visited: seq<Ref>)
    requires WellFormed(h) && Closed(h, v)
    ensures Denotes(h, Ser(h, v, visited).1, v, Ser(h, v, visited).0)
    decreases |Unvisited(h, visited)|, 0
  {
    if v.Obj? && v.r !in visited {
      VisitShrinks(h, visited, v.r);
      SerAllDenotes(h, h[v.r].values, visited + [v.r]);
    }
  }

  lemma {:induction false} SerAllDenotes(h: Heap, vs: seq<Value>, visited: seq<Ref>)
    requires WellFormed(h) && forall i :: 0 <= i < |vs| ==> Closed(h, vs[i])
    ensures var (ws, table) := SerAll(h, vs, visited);
      forall i :: 0 <= i < |vs| ==> Denotes(h, table, vs[i], ws[i])
    decreases |Unvisited(h, visited)|, |vs|
  {
    if vs != [] {
      var (w, visited1) := Ser(h, vs[0], visited);
      VisitMonotone(h, visited, visited1);
      SerDenotes(h, vs[0], visited);
      SerAllDenotes(h, vs[1..], visited1);
      DenotesMore(h, visited1, SerAll(h, vs, visited).1, vs[0], w);
    }
  }

  // ----- Graphs with the same wire form -----

  lemma {:induction false} IndexOfAppend(a: seq<Ref>, b: seq<Ref>, r: Ref)
    ensures IndexOf(a + b, r) == if r in a then IndexOf(a, r) else |a| + IndexOf(b, r)
  {
    if a == [] {
      assert a + b == b;
    } else {
      assert (a + b)[1..] == a[1..] + b;
      IndexOfAppend(a[1..], b, r);
    }
  }

  lemma IndexOfPrefix(a: seq<Ref>, more: seq<Ref>, r: Ref)
    requires a <= more && r in a
    ensures r in more && IndexOf(more, r) == IndexOf(a, r)
  {
    assert more == a + more[|a|..];
    IndexOfAppend(a, more[|a|..], r);
  }

  function Plain(v: Value): Value {
    if v.Undefined? then Null else v
  }

  /** `a` and `b` are the same value, or objects that stand at the same place of the two tables. */
  ghost predicate Corresponds(t1: seq<Ref>, t2: seq<Ref>, a: Value, b: Value) {
    if a.Obj? && b.Obj? then a.r in t1 && b.r in t2 && IndexOf(t1, a.r) == IndexOf(t2, b.r)
    else !a.Obj? && !b.Obj? && Plain(a) == Plain(b)
  }

  ghost predicate SameBody(h1: Heap, t1: seq<Ref>, r1: Ref, h2: Heap, t2: seq<Ref>, r2: Ref) {
    && r1 in h1 && r2 in h2 && h1[r1].shape == h2[r2].shape && |h1[r1].values| == |h2[r2].values|
    && forall i :: 0 <= i < |h1[r1].values| ==> Corresponds(t1, t2, h1[r1].values[i], h2[r2].values[i])
  }

  /** Pairing the tables place by place maps one graph onto the other, sharing and cycles included. */
  ghost predicate Isomorphic(h1: Heap, v1: Value, t1: seq<Ref>, h2: Heap, v2: Value, t2: seq<Ref>) {
    && |t1| == |t2| && Corresponds(t1, t2, v1, v2)
    && SameBodies(h1, t1, h2, t2, 0)
  }

  ghost predicate SameBodies(h1: Heap, t1: seq<Ref>, h2: Heap, t2: seq<Ref>, from: nat)
    requires |t1| == |t2|
  {
    forall k :: from <= k < |t1| ==> SameBody(h1, t1, t1[k], h2, t2, t2[k])
  }

  lemma CorrespondsMore(t1: seq<Ref>, u1: seq<Ref>, t2: seq<Ref>, u2: seq<Ref>, a: Value, b: Value)
    requires t1 <= u1 && t2 <= u2 && Corresponds(t1, t2, a, b)
    ensures Corresponds(u1, u2, a, b)
  {
    if a.Obj? {
      IndexOfPrefix(t1, u1, a.r);
      IndexOfPrefix(t2, u2, b.r);
    }
  }

  lemma BodiesMore(h1: Heap, t1: seq<Ref>, u1: seq<Ref>, h2: Heap, t2: seq<Ref>, u2: seq<Ref>, from: nat)
    requires t1 <= u1 && t2 <= u2 && |t1| == |t2| && |u1| == |u2|
    requires SameBodies(h1, t1, h2, t2, from) && SameBodies(h1, u1, h2, u2, |t1|)
    ensures SameBodies(h1, u1, h2, u2, from)
  {
    forall k | from <= k < |t1| ensures SameBody(h1, u1, u1[k], h2, u2, u2[k]) {
      assert u1[k] == t1[k] && u2[k] == t2[k] && SameBody(h1, t1, t1[k], h2, t2, t2[k]);
      var vs1, vs2 := h1[t1[k]].values, h2[t2[k]].values;
      forall i | 0 <= i < |vs1| ensures Corresponds(u1, u2, vs1[i], vs2[i]) {
        CorrespondsMore(t1, u1, t2, u2, vs1[i], vs2[i]);
      }
    }
  }

  /** Two values with the same wire form are the roots of isomorphic graphs. */
  lemma {:induction false} SameWire(h1: Heap, v1: Value, seen1: seq<Ref>, h2: Heap, v2: Value, seen2: seq<Ref>)
    requires WellFormed(h1) && Closed(h1, v1) && WellFormed(h2) && Closed(h2, v2) && |seen1| == |seen2|
    requires Ser(h1, v1, seen1).0 == Ser(h2, v2, seen2).0
    ensures var t1, t2 := Ser(h1, v1, seen1).1, Ser(h2, v2, seen2).1;
      |t1| == |t2| && Corresponds(t1, t2, v1, v2) && SameBodies(h1, t1, h2, t2, |seen1|)
    decreases |Unvisited(h1, seen1)|, 0
  {
    if v1.Obj? && v1.r !in seen1 {
      VisitShrinks(h1, seen1, v1.r);
      SameWires(h1, h1[v1.r].values, seen1 + [v1.r], h2, h2[v2.r].values, seen2 + [v2.r]);
      var t1, t2 := Ser(h1, v1, seen1).1, Ser(h2, v2, seen2).1;
      NewPlace(seen1, v1.r, t1);
      NewPlace(seen2, v2.r, t2);
      assert SameBody(h1, t1, t1[|seen1|], h2, t2, t2[|seen1|]);
    }
  }

  lemma NewPlace(seen: seq<Ref>, r: Ref, table: seq<Ref>)
    requires r !in seen && seen + [r] <= table
    ensures r in table && table[|seen|] == r && IndexOf(table, r) == |seen|
  {
    assert (seen + [r])[|seen|] == r;
    IndexOfPrefix(seen + [r], table, r);
    IndexOfAppend(seen, [r], r);
  }

  lemma {:induction false} SameWires(
    h1: Heap, vs1: seq<Value>, seen1: seq<Ref>, h2: Heap, vs2: seq<Value>, seen2: seq<Ref>)
    requires WellFormed(h1) && forall i :: 0 <= i < |vs1| ==> Closed(h1, vs1[i])
    requires WellFormed(h2) && forall i :: 0 <= i < |vs2| ==> Closed(h2, vs2[i])
    requires |seen1| == |seen2| && SerAll(h1, vs1, seen1).0 == SerAll(h2, vs2, seen2).0
    ensures var t1, t2 := SerAll(h1, vs1, seen1).1, SerAll(h2, vs2, seen2).1;
      && |vs1| == |vs2| && |t1| == |t2| && SameBodies(h1, t1, h2, t2, |seen1|)
      && forall i :: 0 <= i < |vs1| ==> Corresponds(t1, t2, vs1[i], vs2[i])
    decreases |Unvisited(h1, seen1)|, |vs1|
  {
    if vs1 != [] {
      var (w1, m1) := Ser(h1, vs1[0], seen1);
      var (w2, m2) := Ser(h2, vs2[0], seen2);
      VisitMonotone(h1, seen1, m1);
      assert SerAll(h1, vs1, seen1).0[0] == w1 && SerAll(h2, vs2, seen2).0[0] == w2;
      assert SerAll(h1, vs1, seen1).0[1..] == SerAll(h1, vs1[1..], m1).0;
      assert SerAll(h2, vs2, seen2).0[1..] == SerAll(h2, vs2[1..], m2).0;
      SameWire(h1, vs1[0], seen1, h2, vs2[0], seen2);
      SameWires(h1, vs1[1..], m1, h2, vs2[1..], m2);
      var t1, t2 := SerAll(h1, vs1, seen1).1, SerAll(h2, vs2, seen2).1;
      CorrespondsMore(m1, t1, m2, t2, vs1[0], vs2[0]);
      BodiesMore(h1, m1, t1, h2, m2, t2, |seen1|);
    }
  }

  /** The objects visited so far correspond, one by one, under the isomorphism of tables `t1` and `t2`. */
  ghost predicate InStep(t1: seq<Ref>, seen1: seq<Ref>, t2: seq<Ref>, seen2: seq<Ref>) {
    |seen1| == |seen2| && forall k :: 0 <= k < |seen1| ==> Corresponds(t1, t2, Obj(seen1[k]), Obj(seen2[k]))
  }

  lemma {:induction false} SamePlace(
    t1: seq<Ref>, seen1: seq<Ref>, r1: Ref, t2: seq<Ref>, seen2: seq<Ref>, r2: Ref)
    requires InStep(t1, seen1, t2, seen2) && Corresponds(t1, t2, Obj(r1), Obj(r2))
    ensures (r1 in seen1 <==> r2 in seen2) && IndexOf(seen1, r1) == IndexOf(seen2, r2)
    decreases |seen1|
  {
    if seen1 != [] {
      assert Corresponds(t1, t2, Obj(seen1[0]), Obj(seen2[0]));
      if seen1[0] != r1 {
        SamePlace(t1, seen1[1..], r1, t2, seen2[1..], r2);
      }
    }
  }

  /** Isomorphic graphs have the same wire form. */
  lemma {:induction false} IsoSame(
    h1: Heap, v1: Value, t1: seq<Ref>, seen1: seq<Ref>, h2: Heap, v2: Value, t2: seq<Ref>, seen2: seq<Ref>)
    requires WellFormed(h1) && Closed(h1, v1) && WellFormed(h2) && Closed(h2, v2)
    requires Isomorphic(h1, v1, t1, h2, v2, t2) && InStep(t1, seen1, t2, seen2)
    ensures Ser(h1, v1, seen1).0 == Ser(h2, v2, seen2).0
    ensures InStep(t1, Ser(h1, v1, seen1).1, t2, Ser(h2, v2, seen2).1)
    decreases |Unvisited(h1, seen1)|, 0
  {
    if v1.Obj? {
      SamePlace(t1, seen1, v1.r, t2, seen2, v2.r);
      if v1.r !in seen1 {
        VisitShrinks(h1, seen1, v1.r);
        var k := IndexOf(t1, v1.r);
        assert SameBody(h1, t1, t1[k], h2, t2, t2[k]);
        IsoAllSame(h1, h1[v1.r].values, t1, seen1 + [v1.r], h2, h2[v2.r].values, t2, seen2 + [v2.r]);
      }
    }
  }

  lemma {:induction false} IsoAllSame(h1: Heap, vs1: seq<Value>, t1: seq<Ref>, seen1: seq<Ref>,
                                      h2: Heap, vs2: seq<Value>, t2: seq<Ref>, seen2: seq<Ref>)
    requires WellFormed(h1) && forall i :: 0 <= i < |vs1| ==> Closed(h1, vs1[i])
    requires WellFormed(h2) && forall i :: 0 <= i < |vs2| ==> Closed(h2, vs2[i])
    requires |t1| == |t2| && SameBodies(h1, t1, h2, t2, 0) && InStep(t1, seen1, t2, seen2)
    requires |vs1| == |vs2| && forall i :: 0 <= i < |vs1| ==> Corresponds(t1, t2, vs1[i], vs2[i])
    ensures SerAll(h1, vs1, seen1).0 == SerAll(h2, vs2, seen2).0
    ensures InStep(t1, SerAll(h1, vs1, seen1).1, t2, SerAll(h2, vs2, seen2).1)
    decreases |Unvisited(h1, seen1)|, |vs1|
  {
    if vs1 != [] {
      var m1, m2 := Ser(h1, vs1[0], seen1).1, Ser(h2, vs2[0], seen2).1;
      VisitMonotone(h1, seen1, m1);
      IsoSame(h1, vs1[0], t1, seen1, h2, vs2[0], t2, seen2);
      IsoAllSame(h1, vs1[1..], t1, m1, h2, vs2[1..], t2, m2);
    }
  }

  /** Two messages have the same wire form exactly when their graphs are isomorphic. */
  lemma WireIffIsomorphic(h1: Heap, v1: Value, h2: Heap, v2: Value)
    requires WellFormed(h1) && Closed(h1, v1) && WellFormed(h2) && Closed(h2, v2)
    ensures Serialize(h1, v1) == Serialize(h2, v2) <==> exists t1, t2 :: Isomorphic(h1, v1, t1, h2, v2, t2)
  {
    if Serialize(h1, v1) == Serialize(h2, v2) {
      SameWire(h1, v1, [], h2, v2, []);
      assert Isomorphic(h1, v1, Ser(h1, v1, []).1, h2, v2, Ser(h2, v2, []).1);
    }
    forall t1, t2 | Isomorphic(h1, v1, t1, h2, v2, t2) ensures Serialize(h1, v1) == Serialize(h2, v2) {
      IsoSame(h1, v1, t1, [], h2, v2, t2, []);
    }
  }

  // ----- Deserialization -----

  /** What the decoder builds: fresh objects only, so a tree. A closed port has no receiver. */
  datatype Data =
    | DNull
    | DPrim(p: Primitive)
    | DTree(shape: Shape, values: seq<Data>)
    | DLocalPort(receiver: nat, known: bool)
    | DDartPort(isolate: int, port: int)

  datatype Result<T> = Ok(value: T) | Thrown

  function Des(w: Wire, open: set<nat>): Result<Data>
    decreases w, 0
  {
    match w
    case WNull => Ok(DNull)
    case WPrim(p) => Ok(DPrim(p))
    case WRef(_) => Thrown
    case WNativePort(id) => Ok(DLocalPort(id, id in open))
    case WDartPort(isolate, port) => Ok(DDartPort(isolate, port))
    case WBody(shape, _, values) =>
      var ds := DesAll(values, open);
      if ds.Thrown? then Thrown else Ok(DTree(shape, ds.value))
  }

  function DesAll(ws: seq<Wire>, open: set<nat>): (r: Result<seq<Data>>)
    ensures r.Ok? ==> |r.value| == |ws|
    decreases ws, 1
  {
    if ws == [] then Ok([])
    else
      var d := Des(ws[0], open);
      if d.Thrown? then Thrown
      else
        var ds := DesAll(ws[1..], open);
        if ds.Thrown? then Thrown else Ok([d.value] + ds.value)
  }

  /** `d` is the tree that unfolds from `v`, undefined having become null. */
  ghost predicate Restores(h: Heap, open: set<nat>, v: Value, d: Data)
    decreases d
  {
    match v
    case Undefined => d == DNull
    case Null => d == DNull
    case Prim(p) => d == DPrim(p)
    case LocalPort(id) => d == DLocalPort(id, id in open)
    case DartPort(isolate, port) => d == DDartPort(isolate, port)
    case Obj(r) =>
      && r in h && d.DTree? && d.shape == h[r].shape && |d.values| == |h[r].values|
      && forall i :: 0 <= i < |d.values| ==> Restores(h, open, h[r].values[i], d.values[i])
  }

  lemma {:induction false} DesRestores(h: Heap, table: seq<Ref>, v: Value, w: Wire, open: set<nat>)
    requires Denotes(h, table, v, w) && Des(w, open).Ok?
    ensures Restores(h, open, v, Des(w, open).value)
    decreases w
  {
    if v.Obj? {
      var ds := DesAll(w.values, open).value;
      forall i | 0 <= i < |ds| ensures Restores(h, open, h[v.r].values[i], ds[i]) {
        DesAllAt(w.values, open, i);
        DesRestores(h, table, h[v.r].values[i], w.values[i], open);
      }
    }
  }

  lemma {:induction false} DesAllAt(ws: seq<Wire>, open: set<nat>, i: nat)
    requires DesAll(ws, open).Ok? && i < |ws|
    ensures Des(ws[i], open) == Ok(DesAll(ws, open).value[i])
  {
    if i > 0 { DesAllAt(ws[1..], open, i - 1); }
  }

  // ----- When the decoder throws -----

  type Path = seq<nat>

  /** The value found by following child positions from `v`. */
  ghost function Follow(h: Heap, v: Value, p: Path): Value
    decreases |p|
  {
    if p == [] then v
    else if v.Obj? && v.r in h && p[0] < |h[v.r].values| then Follow(h, h[v.r].values[p[0]], p[1..])
    else Null
  }

  /** Some list or map is reached along two different paths; every cycle is such a case. */
  ghost predicate ReachedTwice(h: Heap, v: Value) {
    exists p: Path, q: Path :: p != q && Follow(h, v, p).Obj? && Follow(h, v, p) == Follow(h, v, q)
  }

  /** `q` does not lead into child `k` or a later child of the object at `p`. */
  ghost predicate Before(q: Path, p: Path, k: nat) {
    p < q ==> q[|p|] < k
  }

  ghost predicate OnPathBefore(h: Heap, root: Value, r: Ref, p: Path, k: nat) {
    exists q: Path :: Follow(h, root, q) == Obj(r) && Before(q, p, k)
  }

  ghost predicate OnPathOff(h: Heap, root: Value, r: Ref, p: Path) {
    exists q: Path :: Follow(h, root, q) == Obj(r) && !(p <= q)
  }

  ghost predicate OnPathUnder(h: Heap, root: Value, r: Ref, p: Path) {
    exists q: Path :: Follow(h, root, q) == Obj(r) && p <= q
  }

  /** Every object in `visited` lies on a path from `root` that is off the children of `p` from `k` on. */
  ghost predicate FoundBefore(h: Heap, root: Value, visited: seq<Ref>, p: Path, k: nat) {
    forall i :: 0 <= i < |visited| ==> OnPathBefore(h, root, visited[i], p, k)
  }

  ghost predicate FoundOff(h: Heap, root: Value, visited: seq<Ref>, p: Path) {
    forall i :: 0 <= i < |visited| ==> OnPathOff(h, root, visited[i], p)
  }

  /** The objects visited from position `from` on lie on paths through `p`. */
  ghost predicate FoundUnder(h: Heap, root: Value, visited: seq<Ref>, from: nat, p: Path) {
    forall i :: from <= i < |visited| ==> OnPathUnder(h, root, visited[i], p)
  }

  lemma {:induction false} FollowStep(h: Heap, root: Value, p: Path, i: nat)
    requires Follow(h, root, p).Obj? && Follow(h, root, p).r in h && i < |h[Follow(h, root, p).r].values|
    ensures Follow(h, root, p + [i]) == h[Follow(h, root, p).r].values[i]
    decreases |p|
  {
    if p == [] {
      assert p + [i] == [i] && [i][1..] == [];
    } else {
      assert (p + [i])[1..] == p[1..] + [i];
      FollowStep(h, h[root.r].values[p[0]], p[1..], i);
    }
  }

  /** A back-reference is sent only for an object that lies on another path too. */
  lemma {:induction false} ThrownMeansTwice(h: Heap, root: Value, p: Path, visited: seq<Ref>, open: set<nat>)
    requires WellFormed(h) && Closed(h, Follow(h, root, p)) && FoundOff(h, root, visited, p)
    ensures var (w, visited') := Ser(h, Follow(h, root, p), visited);
      (Des(w, open).Thrown? ==> ReachedTwice(h, root)) && FoundUnder(h, root, visited', |visited|, p)
    decreases |Unvisited(h, visited)|, 0
  {
    var v := Follow(h, root, p);
    if v.Obj? && v.r in visited {
      FoundAgain(h, root, p, visited);
    } else if v.Obj? {
      VisitShrinks(h, visited, v.r);
      SerBody(h, v, visited, open);
      Entered(h, root, p, visited);
      ThrownAllMeansTwice(h, root, p, 0, visited + [v.r], open);
      assert h[v.r].values[0..] == h[v.r].values;
      SelfFound(h, root, p, visited, Ser(h, v, visited).1);
    }
  }

  lemma {:induction false} ThrownAllMeansTwice(h: Heap, root: Value, p: Path, k: nat, visited: seq<Ref>, open: set<nat>)
    requires WellFormed(h) && Follow(h, root, p).Obj? && Follow(h, root, p).r in h
    requires k <= |h[Follow(h, root, p).r].values| && FoundBefore(h, root, visited, p, k)
    ensures var (ws, visited') := SerAll(h, h[Follow(h, root, p).r].values[k..], visited);
      (DesAll(ws, open).Thrown? ==> ReachedTwice(h, root)) && FoundUnder(h, root, visited', |visited|, p)
    decreases |Unvisited(h, visited)|, |h[Follow(h, root, p).r].values| - k
  {
    var values := h[Follow(h, root, p).r].values;
    if k < |values| {
      FollowStep(h, root, p, k);
      BeforeIsOff(h, root, visited, p, k);
      ThrownMeansTwice(h, root, p + [k], visited, open);
      var visited1 := Ser(h, values[k], visited).1;
      VisitMonotone(h, visited, visited1);
      ChildDone(h, root, visited, visited1, p, k);
      assert values[k..][1..] == values[k + 1..];
      ThrownAllMeansTwice(h, root, p, k + 1, visited1, open);
    }
  }

  lemma SerBody(h: Heap, v: Value, visited: seq<Ref>, open: set<nat>)
    requires WellFormed(h) && Closed(h, v) && v.Obj? && v.r !in visited
    ensures var (ws, visited') := SerAll(h, h[v.r].values, visited + [v.r]);
      && Ser(h, v, visited).1 == visited' && (Des(Ser(h, v, visited).0, open).Thrown? <==> DesAll(ws, open).Thrown?)
  {}

  lemma FoundAgain(h: Heap, root: Value, p: Path, visited: seq<Ref>)
    requires Follow(h, root, p).Obj? && Follow(h, root, p).r in visited && FoundOff(h, root, visited, p)
    ensures ReachedTwice(h, root)
  {
    var i := IndexOf(visited, Follow(h, root, p).r);
    assert OnPathOff(h, root, visited[i], p);
    var q: Path :| Follow(h, root, q) == Obj(visited[i]) && !(p <= q);
    assert p != q;
  }

  lemma SelfFound(h: Heap, root: Value, p: Path, visited: seq<Ref>, visited': seq<Ref>)
    requires Follow(h, root, p).Obj? && visited + [Follow(h, root, p).r] <= visited'
    requires FoundUnder(h, root, visited', |visited| + 1, p)
    ensures FoundUnder(h, root, visited', |visited|, p)
  {
    assert visited'[|visited|] == (visited + [Follow(h, root, p).r])[|visited|];
    assert OnPathUnder(h, root, visited'[|visited|], p) by { assert p <= p; }
  }

  /** On entering an object, everything visited, itself included, is found before its children. */
  lemma Entered(h: Heap, root: Value, p: Path, visited: seq<Ref>)
    requires Follow(h, root, p).Obj? && FoundOff(h, root, visited, p)
    ensures FoundBefore(h, root, visited + [Follow(h, root, p).r], p, 0)
  {
    var all := visited + [Follow(h, root, p).r];
    forall i | 0 <= i < |all| ensures OnPathBefore(h, root, all[i], p, 0) {
      if i < |visited| {
        assert OnPathOff(h, root, visited[i], p);
        var q: Path :| Follow(h, root, q) == Obj(visited[i]) && !(p <= q);
        assert Before(q, p, 0);
      } else {
        assert Before(p, p, 0);
      }
    }
  }

  lemma BeforeIsOff(h: Heap, root: Value, visited: seq<Ref>, p: Path, k: nat)
    requires FoundBefore(h, root, visited, p, k)
    ensures FoundOff(h, root, visited, p + [k])
  {
    forall i | 0 <= i < |visited| ensures OnPathOff(h, root, visited[i], p + [k]) {
      assert OnPathBefore(h, root, visited[i], p, k);
      var q: Path :| Follow(h, root, q) == Obj(visited[i]) && Before(q, p, k);
      if p + [k] <= q { Extends(p, k, q); }
    }
  }

  lemma Extends(p: Path, k: nat, q: Path)
    requires p + [k] <= q
    ensures p < q && q[|p|] == k
  {
    assert q[|p|] == (p + [k])[|p|] && p == (p + [k])[..|p|] && p == q[..|p|];
  }

  /** After child `k` everything visited is found before child `k + 1`. */
  lemma ChildDone(h: Heap, root: Value, visited: seq<Ref>, visited1: seq<Ref>, p: Path, k: nat)
    requires visited <= visited1 && FoundBefore(h, root, visited, p, k)
    requires FoundUnder(h, root, visited1, |visited|, p + [k])
    ensures FoundBefore(h, root, visited1, p, k + 1)
    ensures FoundUnder(h, root, visited1, |visited|, p)
  {
    forall i | 0 <= i < |visited1|
      ensures OnPathBefore(h, root, visited1[i], p, k + 1)
      ensures i >= |visited| ==> OnPathUnder(h, root, visited1[i], p)
    {
      if i < |visited| {
        assert OnPathBefore(h, root, visited[i], p, k);
        var q: Path :| Follow(h, root, q) == Obj(visited[i]) && Before(q, p, k);
        assert Before(q, p, k + 1);
      } else {
        assert OnPathUnder(h, root, visited1[i], p + [k]);
        var q: Path :| Follow(h, root, q) == Obj(visited1[i]) && p + [k] <= q;
        Extends(p, k, q);
        assert Before(q, p, k + 1) && p <= q;
      }
    }
  }

  /** Without a back-reference every path finds an object of its own, visited just now. */
  lemma {:induction false} OkMeansOnce(h: Heap, v: Value, visited: seq<Ref>, open: set<nat>, p: Path, q: Path)
    requires WellFormed(h) && Closed(h, v) && Des(Ser(h, v, visited).0, open).Ok? && Follow(h, v, p).Obj?
    ensures Follow(h, v, p).r in Ser(h, v, visited).1 && Follow(h, v, p).r !in visited
    ensures Follow(h, v, q) == Follow(h, v, p) ==> q == p
    decreases |Unvisited(h, visited)|, 0
  {
    var values, visited1 := h[v.r].values, visited + [v.r];
    VisitShrinks(h, visited, v.r);
    assert visited1[|visited|] == v.r == Ser(h, v, visited).1[|visited|];
    if p == [] {
      if q != [] && Follow(h, v, q) == v { OkAllMeansOnce(h, values, visited1, open, q[0], q[1..], q[0], q[1..]); }
    } else if q == [] {
      OkAllMeansOnce(h, values, visited1, open, p[0], p[1..], p[0], p[1..]);
    } else {
      OkAllMeansOnce(h, values, visited1, open, p[0], p[1..], q[0], q[1..]);
      assert p == [p[0]] + p[1..] && q == [q[0]] + q[1..];
    }
  }

  lemma OkSplit(h: Heap, vs: seq<Value>, visited: seq<Ref>, open: set<nat>)
    requires WellFormed(h) && (forall n :: 0 <= n < |vs| ==> Closed(h, vs[n])) && vs != []
    requires DesAll(SerAll(h, vs, visited).0, open).Ok?
    ensures var (w, visited1) := Ser(h, vs[0], visited);
      && Des(w, open).Ok? && DesAll(SerAll(h, vs[1..], visited1).0, open).Ok?
      && SerAll(h, vs, visited).1 == SerAll(h, vs[1..], visited1).1
  {
    assert SerAll(h, vs, visited).0[1..] == SerAll(h, vs[1..], Ser(h, vs[0], visited).1).0;
  }

  lemma {:induction false} OkAllMeansOnce(
    h: Heap, vs: seq<Value>, visited: seq<Ref>, open: set<nat>, i: nat, p: Path, j: nat, q: Path)
    requires WellFormed(h) && forall n :: 0 <= n < |vs| ==> Closed(h, vs[n])
    requires DesAll(SerAll(h, vs, visited).0, open).Ok? && i < |vs| && Follow(h, vs[i], p).Obj?
    ensures Follow(h, vs[i], p).r in SerAll(h, vs, visited).1 && Follow(h, vs[i], p).r !in visited
    ensures j < |vs| && Follow(h, vs[j], q) == Follow(h, vs[i], p) ==> j == i && q == p
    decreases |Unvisited(h, visited)|, |vs|
  {
    var visited1 := Ser(h, vs[0], visited).1;
    VisitMonotone(h, visited, visited1);
    OkSplit(h, vs, visited, open);
    if i == 0 {
      OkMeansOnce(h, vs[0], visited, open, p, q);
      if 0 < j < |vs| && Follow(h, vs[j], q) == Follow(h, vs[0], p) {
        OkAllMeansOnce(h, vs[1..], visited1, open, j - 1, q, j - 1, q);
      }
    } else {
      OkAllMeansOnce(h, vs[1..], visited1, open, i - 1, p, if j == 0 then |vs| else j - 1, q);
      if j == 0 && Follow(h, vs[0], q) == Follow(h, vs[i], p) {
        OkMeansOnce(h, vs[0], visited, open, q, q);
      }
    }
  }

  // ----- The codec as a whole -----

  /**
   On every finite graph: decoding what was encoded throws exactly when some list or map is reached
   twice, and otherwise restores the message.
   */
  lemma RoundTrip(h: Heap, v: Value, open: set<nat>)
    requires WellFormed(h) && Closed(h, v)
    ensures var d := Des(Serialize(h, v), open);
      && (d.Thrown? <==> ReachedTwice(h, v))
      && (d.Ok? ==> Restores(h, open, v, d.value))
  {
    var d := Des(Serialize(h, v), open);
    if d.Thrown? {
      ThrownMeansTwice(h, v, [], [], open);
    } else {
      SerDenotes(h, v, []);
      DesRestores(h, Ser(h, v, []).1, v, Serialize(h, v), open);
      forall p: Path, q: Path | Follow(h, v, p).Obj? && Follow(h, v, p) == Follow(h, v, q) ensures p == q {
        OkMeansOnce(h, v, [], open, p, q);
      }
    }
  }

  const TWICE: Heap := map[0 := Object(List, [Obj(1), Obj(1)]), 1 := Object(List, [])]
  const ITSELF: Heap := map[0 := Object(List, [Obj(0)])]

  /** A list that holds another list twice, and a list that holds itself, can be sent and not received. */
  lemma SharedNotReceived(open: set<nat>)
    ensures WellFormed(TWICE) && Des(Serialize(TWICE, Obj(0)), open).Thrown?
    ensures WellFormed(ITSELF) && Des(Serialize(ITSELF, Obj(0)), open).Thrown?
  {
    FollowStep(TWICE, Obj(0), [], 0);
    FollowStep(TWICE, Obj(0), [], 1);
    assert [] + [0] == [0] && [] + [1] == [1] && [0] != [1];
    assert ReachedTwice(TWICE, Obj(0));
    RoundTrip(TWICE, Obj(0), open);
    FollowStep(ITSELF, Obj(0), [], 0);
    assert ReachedTwice(ITSELF, Obj(0));
    RoundTrip(ITSELF, Obj(0), open);
  }

  // ----- The loops -----

  lemma SerAllStep(h: Heap, vs: seq<Value>, i: nat, visited: seq<Ref>)
    requires WellFormed(h) && i < |vs| && forall k :: 0 <= k < |vs| ==> Closed(h, vs[k])
    ensures var (w, visited1) := Ser(h, vs[i], visited);
      && |Unvisited(h, visited1)| <= |Unvisited(h, visited)|
      && SerAll(h, vs[i..], visited).0 == [w] + SerAll(h, vs[i + 1..], visited1).0
      && SerAll(h, vs[i..], visited).1 == SerAll(h, vs[i + 1..], visited1).1
  {
    assert vs[i..][0] == vs[i] && vs[i..][1..] == vs[i + 1..];
    VisitMonotone(h, visited, Ser(h, vs[i], visited).1);
  }

  class Serializer {
    const heap: Heap
    var visited: seq<Ref>

    constructor (heap: Heap)
      ensures this.heap == heap && visited == []
    {
      this.heap, visited := heap, [];
    }

    method CheckedSerialization(r: Ref) returns (w: Wire)
      requires WellFormed(heap) && r in heap
      modifies this
      ensures (w, visited) == Ser(heap, Obj(r), old(visited))
      decreases |Unvisited(heap, visited)|, 0
    {
      var id := IndexOf(visited, r);
      if id < |visited| {
        return WRef(id);
      }
      VisitShrinks(heap, visited, r);
      visited := visited + [r];
      var o := heap[r];
      var values := SerializeValues(o.values);
      return WBody(o.shape, id, values);
    }

    /** The loop shared by the two branches of doSerialize that call checkedSerialization. */
    method SerializeValues(vs: seq<Value>) returns (ws: seq<Wire>)
      requires WellFormed(heap) && forall i :: 0 <= i < |vs| ==> Closed(heap, vs[i])
      modifies this
      ensures (ws, visited) == SerAll(heap, vs, old(visited))
      decreases |Unvisited(heap, visited)|, 2
    {
      ws := [];
      ghost var all := SerAll(heap, vs, visited);
      assert vs[0..] == vs && [] + all.0 == all.0;
      for i := 0 to |vs|
        invariant |Unvisited(heap, visited)| <= |Unvisited(heap, old(visited))|
        invariant SerAll(heap, vs[i..], visited).1 == all.1
        invariant ws + SerAll(heap, vs[i..], visited).0 == all.0
      {
        SerAllStep(heap, vs, i, visited);
        ghost var rest := SerAll(heap, vs[i..], visited).0;
        var w := DoSerialize(vs[i]);
        assert ws + rest == ws + [w] + rest[1..];
        ws := ws + [w];
      }
      assert ws + [] == ws;
    }

    method DoSerialize(v: Value) returns (w: Wire)
      requires WellFormed(heap) && Closed(heap, v)
      modifies this
      ensures (w, visited) == Ser(heap, v, old(visited))
      decreases |Unvisited(heap, visited)|, 1
    {
      match v
      case Undefined => w := WNull;
      case Null => w := WNull;
      case Prim(p) => w := WPrim(p);
      case LocalPort(id) => w := WNativePort(id);
      case DartPort(isolate, port) => w := WDartPort(isolate, port);
      case Obj(r) => w := CheckedSerialization(r);
    }
  }

  method DeserializeHelper(w: Wire, open: set<nat>) returns (r: Result<Data>)
    ensures r == Des(w, open)
    decreases w
  {
    match w
    case WNull => r := Ok(DNull);
    case WPrim(p) => r := Ok(DPrim(p));
    case WRef(_) => r := Thrown;
    case WNativePort(id) => r := Ok(DLocalPort(id, id in open));
    case WDartPort(isolate, port) => r := Ok(DDartPort(isolate, port));
    case WBody(shape, _, values) =>
      var ds: seq<Data> := [];
      assert values[0..] == values && forall all: seq<Data> :: ds + all == all;
      for i := 0 to |values|
        invariant var rest := DesAll(values[i..], open);
          DesAll(values, open) == if rest.Thrown? then Thrown else Ok(ds + rest.value)
      {
        assert values[i..][1..] == values[i + 1..];
        var d := DeserializeHelper(values[i], open);
        if d.Thrown? {
          return Thrown;
        }
        assert forall rest: seq<Data> :: ds + ([d.value] + rest) == ds + [d.value] + rest;
        ds := ds + [d.value];
      }
      assert ds + [] == ds;
      r := Ok(DTree(shape, ds));
  }
}
