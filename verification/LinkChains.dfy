/**
 The chain of followed links, kept in heap cells that each level of the walk either inherits from
 the level below or owns itself.
 */
module LinkChains {
  import opened Basics
  import opened FileSystem

  /** Address of an allocated LinkList cell; addresses are never reused. */
  type Ptr = nat

  datatype Cell = Cell(ino: Ino, next: Option<Ptr>)

  type Heap = map<Ptr, Cell>

  /** The level's own cell: its link differs from the one of the level below. */
  predicate Owns(ls: seq<Option<Ptr>>) {
    ls != [] && ls[|ls| - 1].Some? && ls[|ls| - 1] != Below(ls)
  }

  function Below(ls: seq<Option<Ptr>>): Option<Ptr> {
    if |ls| < 2 then None else ls[|ls| - 2]
  }

  function ChainBelow(cs: seq<seq<Ino>>): seq<Ino> {
    if |cs| < 2 then [] else cs[|cs| - 2]
  }

  /**
   Levels with links `ls` and chains `cs`, from the outermost in, account for every cell of the
   heap: each live cell is owned by exactly one level, and extends the chain of the level below.
   */
  ghost predicate Accounted(ls: seq<Option<Ptr>>, heap: Heap, cs: seq<seq<Ino>>)
    decreases |ls|
  {
    && |ls| == |cs|
    && if ls == [] then heap == map[] else
         var n := |ls| - 1;
         if Owns(ls) then
           var p := ls[n].value;
           && p in heap && heap[p].next == Below(ls) && cs[n] == [heap[p].ino] + ChainBelow(cs)
           && (forall q :: q in heap ==> q <= p)
           && Accounted(ls[..n], heap - {p}, cs[..n])
         else
           && cs[n] == (if ls[n] == Below(ls) then ChainBelow(cs) else [])
           && Accounted(ls[..n], heap, cs[..n])
  }

  /** Following `next` from `p` visits live cells holding exactly `chain`. */
  ghost predicate IsChain(heap: Heap, p: Option<Ptr>, chain: seq<Ino>)
    decreases |chain|
  {
    match p
    case None => chain == []
    case Some(q) => q in heap && chain != [] && heap[q].ino == chain[0] && IsChain(heap, heap[q].next, chain[1..])
  }

  lemma {:induction false} IsChainMore(heap: Heap, more: Heap, p: Option<Ptr>, chain: seq<Ino>)
    requires IsChain(heap, p, chain) && forall q :: q in heap ==> q in more && more[q] == heap[q]
    ensures IsChain(more, p, chain)
    decreases |chain|
  {
    if p.Some? { IsChainMore(heap, more, heap[p.value].next, chain[1..]); }
  }

  /** No cell reachable from a level's link has been freed. */
  lemma {:induction false} LevelChain(ls: seq<Option<Ptr>>, heap: Heap, cs: seq<seq<Ino>>)
    requires Accounted(ls, heap, cs) && ls != []
    ensures IsChain(heap, ls[|ls| - 1], cs[|ls| - 1])
    decreases |ls|
  {
    var n := |ls| - 1;
    if Owns(ls) {
      var p := ls[n].value;
      assert cs[n][1..] == ChainBelow(cs);
      if n > 0 {
        assert ls[..n][n - 1] == ls[n - 1] && cs[..n][n - 1] == cs[n - 1];
        LevelChain(ls[..n], heap - {p}, cs[..n]);
        IsChainMore(heap - {p}, heap, ls[n - 1], cs[n - 1]);
      }
    } else if n > 0 && ls[n] == Below(ls) {
      assert ls[..n][n - 1] == ls[n - 1] && cs[..n][n - 1] == cs[n - 1];
      LevelChain(ls[..n], heap, cs[..n]);
    }
  }

  /** The same for every level of the stack, not just the innermost. */
  lemma {:induction false} AnyLevelChain(ls: seq<Option<Ptr>>, heap: Heap, cs: seq<seq<Ino>>, i: nat)
    requires Accounted(ls, heap, cs) && i < |ls|
    ensures IsChain(heap, ls[i], cs[i])
    decreases |ls|
  {
    var n := |ls| - 1;
    if i == n {
      LevelChain(ls, heap, cs);
    } else {
      var below := if Owns(ls) then heap - {ls[n].value} else heap;
      assert ls[..n][i] == ls[i] && cs[..n][i] == cs[i];
      AnyLevelChain(ls[..n], below, cs[..n], i);
      IsChainMore(below, heap, ls[i], cs[i]);
    }
  }

  /** ResetLink at the innermost level: free the own cell, if any, and inherit from the level below. */
  lemma ResetKeepsAccount(ls: seq<Option<Ptr>>, heap: Heap, cs: seq<seq<Ino>>)
    requires Accounted(ls, heap, cs) && ls != []
    ensures var n := |ls| - 1;
      var heap' := if Owns(ls) then heap - {ls[n].value} else heap;
      && (Owns(ls) ==> ls[n].value in heap)
      && Accounted(ls[n := Below(ls)], heap', cs[n := ChainBelow(cs)])
      && Accounted(ls[..n], heap', cs[..n])
  {
    var n := |ls| - 1;
    assert ls[n := Below(ls)][..n] == ls[..n] && cs[n := ChainBelow(cs)][..n] == cs[..n];
  }

  /** Following a link at the innermost level: a new cell in front of the inherited chain. */
  lemma FollowKeepsAccount(ls: seq<Option<Ptr>>, heap: Heap, cs: seq<seq<Ino>>, p: Ptr, ino: Ino)
    requires Accounted(ls, heap, cs) && ls != [] && ls[|ls| - 1] == Below(ls) && forall q :: q in heap ==> q < p
    ensures var n := |ls| - 1;
      Accounted(ls[n := Some(p)], heap[p := Cell(ino, ls[n])], cs[n := [ino] + cs[n]])
  {
    var n := |ls| - 1;
    var ls', heap', cs' := ls[n := Some(p)], heap[p := Cell(ino, ls[n])], cs[n := [ino] + cs[n]];
    assert ls'[..n] == ls[..n] && cs'[..n] == cs[..n] && heap' - {p} == heap;
    assert Owns(ls') by {
      if Below(ls) == Some(p) {
        assert ls[..n][n - 1] == Some(p) && cs[..n][n - 1] == cs[n - 1];
        LevelChain(ls[..n], heap, cs[..n]);
      }
    }
  }

  /** A new innermost level starts without a link. */
  lemma PushKeepsAccount(ls: seq<Option<Ptr>>, heap: Heap, cs: seq<seq<Ino>>)
    requires Accounted(ls, heap, cs)
    ensures Accounted(ls + [None], heap, cs + [[]])
  {
    assert (ls + [None])[..|ls|] == ls && (cs + [[]])[..|cs|] == cs;
    if ls != [] { LevelChain(ls, heap, cs); }
  }
}
