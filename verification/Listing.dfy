/**
 The resumable directory walk: an explicit stack of open directories, one shared path buffer and a
 chain of followed links, proved to produce the recursive listing in batches of any size.
 */
module Listing {
  import Ring
  import opened Basics
  import opened PathBuffers
  import opened FileSystem
  import opened LinkChains

  datatype Lister = Lister(ino: Ino, pos: nat)

  /** DirectoryListingEntry; its parent is the entry below it on the stack. */
  datatype Entry = Entry(lister: Option<Lister>, done: bool, pathLength: nat, link: Option<Ptr>)

  datatype ListType = ListFile | ListDirectory | ListLink | ListError | ListDone

  /** A path without the separator at its end. */
  function Bare(p: string): string {
    if Separated(p) then p[..|p| - 1] else p
  }

  /** What is listed: a directory of a file system, known as `path`. */
  datatype Task = Task(fs: FS, root: Ino, path: string, opt: Options) {
    ghost predicate Ok() { WellFormed(fs) && root in fs.nodes && NoNul(path) && Separated(path) }

    function Relative(p: string): string
      requires path <= p
    {
      p[|path|..]
    }

    /** The file that a path leads to; the start path leads to the root, with its separator and without. */
    function Reach(p: string): Option<Ino> {
      if path == p + "/" then Some(root)
      else if path <= p then Resolve(fs, root, Bare(Relative(p)))
      else None
    }

    /** opendir: the directory behind a path, if it can be opened. */
    function OpenDir(p: string): Option<Ino> {
      var d := Reach(p);
      if d.Some? && d.value in fs.nodes && fs.nodes[d.value].Dir? && fs.nodes[d.value].openable then d else None
    }

    /** lstat: the entry that a path names, and for a path that ends in a separator the directory itself. */
    function Lstat(p: string): Option<Dirent> {
      if !(path <= p) then None
      else
        var r := Relative(p);
        if r != "" && !Separated(r) then Lookup(fs, root, r)
        else
          var d := Reach(p);
          if d.None? then None else Some(Dirent(".", d.value, DtDir, true))
    }
  }

  // ----- What a stack stands for -----

  /** A directory still to be opened, one being read, or nothing more; `text` is its path or prefix. */
  datatype Frame = Unopened(text: string, ino: Ino) | Open(text: string, ino: Ino, pos: nat) | Finished(text: string)

  /** What a stack entry has still to report; `base` are the links followed to reach its directory. */
  ghost function RestOf(t: Task, f: Frame, base: seq<Ino>, outermost: bool): seq<Item>
    requires t.Ok()
  {
    match f
    case Unopened(path, d) =>
      if |path| == PATH_MAX && !outermost then [ErrorItem(Cut(path))]
      else if d in t.fs.nodes then ListDir(t.fs, t.opt, path, d, base, outermost) else []
    case Open(prefix, d, pos) =>
      if d in t.fs.nodes && t.fs.nodes[d].Dir? && pos <= |t.fs.nodes[d].entries|
      then ListFrom(t.fs, t.opt, prefix, d, pos, base) else []
    case Finished(_) => []
  }

  /**
   `rest` is what a stack entry has still to report. Stated for all `o`, so that the recursive listing
   is not unfolded wherever the predicate is mentioned.
   */
  ghost predicate RestIs(t: Task, f: Frame, base: seq<Ino>, outermost: bool, rest: seq<Item>)
    requires t.Ok()
  {
    forall o :: o == outermost ==> rest == RestOf(t, f, base, o)
  }

  lemma RestUnique(t: Task, f: Frame, base: seq<Ino>, outermost: bool, rest: seq<Item>, rest': seq<Item>)
    requires t.Ok() && RestIs(t, f, base, outermost, rest) && RestIs(t, f, base, outermost, rest')
    ensures rest == rest'
  {
    assert rest == RestOf(t, f, base, outermost);
  }

  ghost predicate RoomOf(t: Task, f: Frame, base: seq<Ino>, outermost: bool)
    requires t.Ok()
  {
    match f
    case Unopened(path, d) =>
      (|path| == PATH_MAX && !outermost) || (d in t.fs.nodes && RoomDir(t.fs, t.opt, path, d, base, outermost))
    case Open(prefix, d, pos) =>
      && d in t.fs.nodes && t.fs.nodes[d].Dir? && pos <= |t.fs.nodes[d].entries|
      && RoomFrom(t.fs, t.opt, prefix, d, pos, base)
    case Finished(_) => true
  }

  /** A stack entry will enter no directory that cannot be left; stated for all `o` like RestIs. */
  ghost predicate RoomFor(t: Task, f: Frame, base: seq<Ino>, outermost: bool)
    requires t.Ok()
  {
    forall o :: o == outermost ==> RoomOf(t, f, base, o)
  }

  /** A stack entry represents a frame. */
  ghost predicate Represents(t: Task, e: Entry, f: Frame, outermost: bool) {
    && t.path <= f.text && NoNul(f.text)
    && match f
       case Unopened(path, d) =>
         && e.lister.None? && !e.done && e.link.None? && |path| <= PATH_MAX && d in t.fs.nodes
         && (outermost <==> path == t.path)
       case Open(prefix, d, pos) =>
         && e.lister == Some(Lister(d, pos)) && !e.done && e.pathLength == |prefix| <= PATH_MAX
         && d in t.fs.nodes && t.fs.nodes[d].Dir? && pos <= |t.fs.nodes[d].entries|
       case Finished(_) => e.done
  }

  /** The path or prefix of a frame leads to its directory; one that fills the buffer cannot be opened. */
  ghost predicate Leads(t: Task, f: Frame) {
    && t.path <= f.text
    && match f
       case Unopened(path, d) =>
         if path == t.path then d == t.root
         else if |path| == PATH_MAX then t.OpenDir(Cut(path)) == None
         else !Separated(t.Relative(path)) && Resolve(t.fs, t.root, t.Relative(path)) == Some(d)
       case Open(prefix, d, _) => LeadsTo(t.fs, t.root, t.Relative(prefix), d)
       case Finished(_) => true
  }

  /** What the levels of a stack have still to report, innermost level first. */
  ghost function Flat(rests: seq<seq<Item>>): seq<Item> {
    if rests == [] then [] else rests[|rests| - 1] + Flat(rests[..|rests| - 1])
  }

  ghost function LinksOf(stack: seq<Entry>): (ls: seq<Option<Ptr>>)
    ensures |ls| == |stack| && forall i :: 0 <= i < |ls| ==> ls[i] == stack[i].link
  {
    seq(|stack|, i requires 0 <= i < |stack| => stack[i].link)
  }

  /** The link of the level below the innermost. */
  function LinkBelow(stack: seq<Entry>): Option<Ptr> {
    if |stack| < 2 then None else stack[|stack| - 2].link
  }

  /**
   The state of a walk: the stack and the cells of the link chains, and for each level of the stack
   the frame it stands for, the links followed in it and what it has still to report.
   */
  datatype WalkState = WalkState(
    task: Task, stack: seq<Entry>, frames: seq<Frame>, chains: seq<seq<Ino>>, rests: seq<seq<Item>>,
    links: Heap, nextLink: Ptr)
  {
    ghost predicate Shaped() {
      task.Ok() && |stack| == |frames| == |chains| == |rests|
    }

    ghost function BaseAt(i: int): seq<Ino>
      requires 0 <= i <= |chains|
    {
      if i == 0 then [] else chains[i - 1]
    }

    /** Entry `i` represents its frame, inside the directory that is being read below it. */
    ghost predicate LevelOk(i: int)
      requires Shaped()
    {
      0 <= i < |stack| ==>
        && Represents(task, stack[i], frames[i], i == 0) && RoomFor(task, frames[i], BaseAt(i), i == 0)
        && (i > 0 ==> frames[i - 1].Open? && frames[i - 1].text < frames[i].text)
    }

    ghost predicate RestOk(i: int)
      requires Shaped()
    {
      0 <= i < |stack| ==> RestIs(task, frames[i], BaseAt(i), i == 0, rests[i])
    }

    ghost predicate PathOk(i: int)
      requires Shaped()
    {
      0 <= i < |stack| ==> Leads(task, frames[i])
    }

    /** No link has been followed twice to get to what level `i` reads. */
    ghost predicate OnceOk(i: int)
      requires Shaped()
    {
      0 <= i < |stack| ==> Ring.Distinct(chains[i])
    }

    /**
     The cells of the link chains, seen from the whole stack of depth `n`. Like the other parts of Ok it
     is stated for all `n`, so that it stays a name until a proof mentions the depth it needs.
     */
    ghost predicate LinksOk(n: int) {
      n == |stack| ==> Accounted(LinksOf(stack), links, chains) && forall p :: p in links ==> p < nextLink
    }

    ghost predicate Ok() {
      && Shaped() && (forall i :: LevelOk(i)) && (forall i :: RestOk(i)) && (forall i :: PathOk(i))
      && (forall i :: OnceOk(i)) && (forall n :: LinksOk(n))
    }

    ghost function Top(): Frame
      requires Ok() && stack != []
    {
      frames[|stack| - 1]
    }

    ghost predicate Outermost() { |stack| == 1 }

    /** The links followed to reach the innermost directory. */
    ghost function Base(): seq<Ino> { ChainBelow(chains) }

    /** What the innermost entry has still to report. */
    ghost function TopRest(): seq<Item>
      requires |stack| == |rests| && stack != []
    {
      rests[|rests| - 1]
    }
  }

  /** Every walk that can be built is sound. */
  type Walk = w: WalkState | w.Ok()
    witness WalkState(Task(FS(map[0 := Reg], map[]), 0, "/", Options(false, false)), [], [], [], [], map[], 0)

  /** What the innermost entry and its frame have to do with each other. */
  lemma TopOk(w: Walk)
    requires w.stack != []
    ensures w.LevelOk(|w.stack| - 1)
  {}

  /** The walk enters no directory that it cannot leave; a start path that is too long is refused outright. */
  ghost predicate Listable(task: Task)
    requires task.Ok()
  {
    |task.path| <= PATH_MAX ==> RoomDir(task.fs, task.opt, task.path, task.root, [], true)
  }

  lemma StartWalk(task: Task) returns (w: Walk)
    requires task.Ok() && Listable(task) && |task.path| <= PATH_MAX
    ensures w.task == task && w.stack == [Entry(None, false, 0, None)] && w.links == map[] && w.nextLink == 0
    ensures w.frames == [Unopened(task.path, task.root)]
    ensures w.rests == [ListDir(task.fs, task.opt, task.path, task.root, [], true)]
  {
    var rest := ListDir(task.fs, task.opt, task.path, task.root, [], true);
    var s := WalkState(task, [Entry(None, false, 0, None)], [Unopened(task.path, task.root)], [[]], [rest], map[], 0);
    assert LinksOf(s.stack) == [None] && LinksOf(s.stack)[..0] == [] && s.chains[..0] == [];
    assert Accounted([], map[], []);
    w := s;
  }

  /** All entries but the innermost have the same to report as before. */
  ghost predicate OnlyTopChanged(w: WalkState, w': WalkState) {
    && w'.task == w.task && w.stack != [] && w'.Base() == w.Base()
    && |w'.stack| == |w'.rests| == |w.stack| == |w.rests| && w'.rests[..|w.stack| - 1] == w.rests[..|w.stack| - 1]
  }

  /** Two states that agree on the levels below `n`. */
  ghost predicate SameBelow(w: WalkState, w': WalkState, n: nat)
    requires w.Shaped() && w'.Shaped() && n <= |w.stack| && n <= |w'.stack|
  {
    && w'.task == w.task && w'.stack[..n] == w.stack[..n] && w'.frames[..n] == w.frames[..n]
    && w'.chains[..n] == w.chains[..n] && w'.rests[..n] == w.rests[..n]
  }

  lemma LevelKept(w: Walk, w': WalkState, n: nat, i: nat)
    requires w'.Shaped() && i < n <= |w.stack| && n <= |w'.stack| && SameBelow(w, w', n)
    ensures w'.LevelOk(i) && w'.RestOk(i) && w'.PathOk(i) && w'.OnceOk(i)
  {
    assert w.LevelOk(i) && w.RestOk(i) && w.PathOk(i) && w.OnceOk(i);
    Same(w.chains, w'.chains, n, i);
    Same(w.stack, w'.stack, n, i);
    Same(w.frames, w'.frames, n, i);
    Same(w.rests, w'.rests, n, i);
    if i > 0 {
      Same(w.frames, w'.frames, n, i - 1);
      Same(w.chains, w'.chains, n, i - 1);
    }
  }

  /** A state is sound that takes its first `n` levels from a sound one and has at most one other. */
  lemma Rebuilt(w: Walk, w': WalkState, n: nat)
    requires w'.Shaped() && n <= |w.stack| && n <= |w'.stack| <= n + 1 && SameBelow(w, w', n)
    requires w'.LevelOk(n) && w'.RestOk(n) && w'.PathOk(n) && w'.OnceOk(n) && w'.LinksOk(|w'.stack|)
    ensures w'.Ok()
  {
    forall i ensures w'.LevelOk(i) && w'.RestOk(i) && w'.PathOk(i) && w'.OnceOk(i) {
      if 0 <= i < n { LevelKept(w, w', n, i); }
    }
  }

  /** A state that differs from a sound one at the innermost entry only. */
  lemma TopReplaced(w: Walk, w': WalkState)
    requires w.stack != [] && |w'.stack| == |w.stack| && w'.Shaped() && SameBelow(w, w', |w.stack| - 1)
    requires var n := |w.stack| - 1;
      w'.LevelOk(n) && w'.RestOk(n) && w'.PathOk(n) && w'.OnceOk(n) && w'.LinksOk(n + 1)
    ensures w'.Ok() && OnlyTopChanged(w, w')
  {
    var n := |w.stack| - 1;
    Rebuilt(w, w', n);
    if n > 0 { Same(w.chains, w'.chains, n, n - 1); }
  }

  lemma Same<T>(a: seq<T>, b: seq<T>, n: nat, i: nat)
    requires i < n <= |a| && n <= |b| && a[..n] == b[..n]
    ensures a[i] == b[i]
  {
    assert a[i] == a[..n][i] && b[i] == b[..n][i];
  }

  /** The innermost level has a link cell of its own. */
  predicate TopOwns(stack: seq<Entry>) {
    stack != [] && stack[|stack| - 1].link.Some? && stack[|stack| - 1].link != LinkBelow(stack)
  }

  /** The cells left when the innermost level gives up its own. */
  function LinksWithoutTop(links: Heap, stack: seq<Entry>): Heap {
    if TopOwns(stack) then links - {stack[|stack| - 1].link.value} else links
  }

  /** The innermost level can give up its cell, whether it stays on the stack or not. */
  lemma TopCellFreed(w: Walk)
    requires w.stack != []
    ensures var n := |w.stack| - 1;
      var links := LinksWithoutTop(w.links, w.stack);
      && Accounted(LinksOf(w.stack[..n]), links, w.chains[..n])
      && Accounted(LinksOf(w.stack[n := w.stack[n].(link := LinkBelow(w.stack))]), links, w.chains[n := w.Base()])
      && forall p :: p in links ==> p < w.nextLink
    ensures TopOwns(w.stack) ==> w.stack[|w.stack| - 1].link.value in w.links
  {
    var n := |w.stack| - 1;
    var ls := LinksOf(w.stack);
    assert w.LinksOk(n + 1);
    ResetKeepsAccount(ls, w.links, w.chains);
    assert LinksOf(w.stack[..n]) == ls[..n] && Below(ls) == LinkBelow(w.stack);
    assert LinksOf(w.stack[n := w.stack[n].(link := LinkBelow(w.stack))]) == ls[n := Below(ls)];
  }

  lemma BaseOnce(w: Walk)
    requires w.stack != []
    ensures Ring.Distinct(w.Base())
  {
    assert w.OnceOk(|w.stack| - 2);
  }

  /** ResetLink on the innermost entry: its own cell is freed and it inherits the link below. */
  lemma TopUnlinked(w: Walk) returns (w': Walk)
    requires w.stack != [] && !w.Top().Unopened?
    ensures OnlyTopChanged(w, w') && w'.frames == w.frames && w'.rests == w.rests && w'.nextLink == w.nextLink
    ensures var n := |w.stack| - 1;
      && w'.stack == w.stack[n := w.stack[n].(link := LinkBelow(w.stack))] && w'.chains[n] == w'.Base()
    ensures w'.links == LinksWithoutTop(w.links, w.stack)
    ensures TopOwns(w.stack) ==> w.stack[|w.stack| - 1].link.value in w.links
  {
    var n := |w.stack| - 1;
    var s := w.(stack := w.stack[n := w.stack[n].(link := LinkBelow(w.stack))], chains := w.chains[n := w.Base()],
                links := LinksWithoutTop(w.links, w.stack));
    assert w.LevelOk(n) && w.RestOk(n) && w.PathOk(n);
    BaseOnce(w);
    assert s.LevelOk(n) && s.RestOk(n) && s.PathOk(n) && s.OnceOk(n);
    TopCellFreed(w);
    TopReplaced(w, s);
    w' := s;
  }

  /** A new cell in front of the chain that the innermost level has inherited. */
  lemma TopCellAdded(w: Walk, ino: Ino)
    requires w.stack != [] && w.stack[|w.stack| - 1].link == LinkBelow(w.stack)
    ensures var n := |w.stack| - 1;
      Accounted(LinksOf(w.stack[n := w.stack[n].(link := Some(w.nextLink))]),
                w.links[w.nextLink := Cell(ino, w.stack[n].link)], w.chains[n := [ino] + w.chains[n]])
    ensures forall p :: p in w.links ==> p < w.nextLink
  {
    var n, ls := |w.stack| - 1, LinksOf(w.stack);
    assert w.LinksOk(n + 1);
    FollowKeepsAccount(ls, w.links, w.chains, w.nextLink, ino);
    assert LinksOf(w.stack[n := w.stack[n].(link := Some(w.nextLink))]) == ls[n := Some(w.nextLink)];
  }

  /** Following a link at the innermost entry: a new cell in front of its chain. */
  lemma TopFollowing(w: Walk, ino: Ino) returns (w': Walk)
    requires w.stack != [] && w.Top().Open? && w.stack[|w.stack| - 1].link == LinkBelow(w.stack)
    requires ino !in w.chains[|w.stack| - 1]
    ensures OnlyTopChanged(w, w') && w'.frames == w.frames && w'.rests == w.rests && w'.nextLink == w.nextLink + 1
    ensures var n := |w.stack| - 1;
      && w'.stack == w.stack[n := w.stack[n].(link := Some(w.nextLink))]
      && w'.links == w.links[w.nextLink := Cell(ino, w.stack[n].link)]
      && w'.chains[n] == [ino] + w.chains[n]
  {
    var n := |w.stack| - 1;
    var s := w.(stack := w.stack[n := w.stack[n].(link := Some(w.nextLink))],
                chains := w.chains[n := [ino] + w.chains[n]],
                links := w.links[w.nextLink := Cell(ino, w.stack[n].link)], nextLink := w.nextLink + 1);
    assert w.LevelOk(n) && w.RestOk(n) && w.PathOk(n) && w.OnceOk(n);
    Ring.DistinctCons(ino, w.chains[n]);
    assert s.LevelOk(n) && s.RestOk(n) && s.PathOk(n) && s.OnceOk(n);
    TopCellAdded(w, ino);
    TopReplaced(w, s);
    w' := s;
  }

  /** `e` and `f` can take the place of the innermost entry and its frame. */
  ghost predicate CanReplace(w: Walk, e: Entry, f: Frame)
    requires w.stack != []
  {
    && e.link == w.stack[|w.stack| - 1].link
    && Represents(w.task, e, f, w.Outermost()) && RoomFor(w.task, f, w.Base(), w.Outermost())
    && w.Top().text <= f.text
  }

  /** Only the innermost entry was replaced, by `e`. */
  ghost predicate Replaced(w: Walk, w': Walk, e: Entry) {
    && OnlyTopChanged(w, w') && w'.chains == w.chains && w'.links == w.links && w'.nextLink == w.nextLink
    && w'.stack == w.stack[|w.stack| - 1 := e] && e.link == w.stack[|w.stack| - 1].link
  }

  /** The innermost entry comes to represent another frame. */
  lemma TopSet(w: Walk, e: Entry, f: Frame, rest: seq<Item>) returns (w': Walk)
    requires w.stack != [] && CanReplace(w, e, f) && Leads(w.task, f)
    requires RestIs(w.task, f, w.Base(), w.Outermost(), rest)
    ensures Replaced(w, w', e) && w'.Top() == f && w'.TopRest() == rest
  {
    var n := |w.stack| - 1;
    var s := w.(stack := w.stack[n := e], frames := w.frames[n := f],
                rests := w.rests[n := rest]);
    assert w.LevelOk(n) && w.OnceOk(n) && w.LinksOk(n + 1) && LinksOf(s.stack) == LinksOf(w.stack);
    TopReplaced(w, s);
    w' := s;
  }

  /** A new entry, for the directory `path` found in the innermost one, is on top of the stack. */
  ghost predicate Entered(w: Walk, w': Walk, path: string) {
    && w'.task == w.task && w'.links == w.links && w'.nextLink == w.nextLink
    && w'.stack == w.stack + [Entry(None, false, 0, None)] && w'.rests == w.rests + [w'.TopRest()]
    && w'.Top().Unopened? && w'.Top().text == path
  }

  lemma TopCellMissing(w: Walk, stack: seq<Entry>)
    requires stack == w.stack + [Entry(None, false, 0, None)]
    ensures Accounted(LinksOf(stack), w.links, w.chains + [[]]) && forall p :: p in w.links ==> p < w.nextLink
  {
    assert w.LinksOk(|w.stack|);
    PushKeepsAccount(LinksOf(w.stack), w.links, w.chains);
    assert LinksOf(stack) == LinksOf(w.stack) + [None];
  }

  lemma TopEntered(w: Walk, path: string, sub: Ino, rest: seq<Item>) returns (w': Walk)
    requires w.stack != [] && w.Top().Open? && w.Top().text < path
    requires Represents(w.task, Entry(None, false, 0, None), Unopened(path, sub), false)
    requires RoomFor(w.task, Unopened(path, sub), w.chains[|w.stack| - 1], false) && Leads(w.task, Unopened(path, sub))
    requires RestIs(w.task, Unopened(path, sub), w.chains[|w.stack| - 1], false, rest)
    ensures Entered(w, w', path) && w'.TopRest() == rest
  {
    var n := |w.stack|;
    var s := w.(stack := w.stack + [Entry(None, false, 0, None)], frames := w.frames + [Unopened(path, sub)],
                chains := w.chains + [[]], rests := w.rests + [rest]);
    TopCellMissing(w, s.stack);
    Rebuilt(w, s, n);
    w' := s;
  }

  /** The destructor frees the entry's own cell; below lies a directory whose prefix the path still has. */
  lemma TopRemoved(w: Walk) returns (w': Walk)
    requires w.stack != []
    ensures var n := |w.stack| - 1;
      && w'.task == w.task && w'.stack == w.stack[..n] && w'.rests == w.rests[..n] && w'.nextLink == w.nextLink
      && (n > 0 ==> w'.Top().Open? && w'.Top().text < w.Top().text)
    ensures w'.links == LinksWithoutTop(w.links, w.stack)
    ensures TopOwns(w.stack) ==> w.stack[|w.stack| - 1].link.value in w.links
  {
    var n := |w.stack| - 1;
    var s := WalkState(w.task, w.stack[..n], w.frames[..n], w.chains[..n], w.rests[..n],
                       LinksWithoutTop(w.links, w.stack), w.nextLink);
    TopCellFreed(w);
    assert w.LevelOk(n);
    Rebuilt(w, s, n);
    w' := s;
  }

  // ----- One step of a frame -----

  /** A path leads where its frame says, as the buffer shows it. */
  lemma OpenedIsLed(t: Task, path: string, d: Ino)
    requires t.Ok() && Leads(t, Unopened(path, d)) && |path| <= PATH_MAX && t.OpenDir(Cut(path)).Some?
    ensures t.OpenDir(Cut(path)) == Some(d) && (|path| < PATH_MAX || path == t.path)
  {
    ReachedIsLed(t, path, d);
  }

  lemma ReachedIsLed(t: Task, path: string, d: Ino)
    requires t.Ok() && Leads(t, Unopened(path, d)) && |path| <= PATH_MAX
    ensures |path| < PATH_MAX || path == t.path ==> t.Reach(Cut(path)) == Some(d)
  {
    if path == t.path {
      assert t.path == t.path[..|t.path| - 1] + "/";
      assert |path| < PATH_MAX ==> t.Relative(path) == "";
    }
  }

  /** Opening a directory changes nothing about what is left to report. */
  lemma OpenedFrame(t: Task, e: Entry, path: string, d: Ino, base: seq<Ino>, outermost: bool, rest: seq<Item>)
    requires t.Ok() && t.OpenDir(Cut(path)) == Some(d) && (|path| < PATH_MAX || outermost)
    requires Represents(t, e, Unopened(path, d), outermost) && RoomFor(t, Unopened(path, d), base, outermost)
    requires Leads(t, Unopened(path, d)) && RestIs(t, Unopened(path, d), base, outermost, rest)
    ensures var prefix := if outermost then path else path + "/";
      && |prefix| <= PATH_MAX && NoNul(prefix) && RoomFor(t, Open(prefix, d, 0), base, outermost)
      && Leads(t, Open(prefix, d, 0)) && RestIs(t, Open(prefix, d, 0), base, outermost, rest)
      && Represents(t, e.(lister := Some(Lister(d, 0)), pathLength := |prefix|), Open(prefix, d, 0), outermost)
  {
    var prefix := if outermost then path else path + "/";
    assert RoomOf(t, Unopened(path, d), base, outermost);
    assert rest == RestOf(t, Unopened(path, d), base, outermost);
    if outermost {
      assert t.Relative(path) == "";
    } else {
      assert t.Relative(prefix) == t.Relative(path) + "/";
      assert t.Relative(prefix)[..|t.Relative(path)|] == t.Relative(path);
    }
  }

  /**
   `o` is what becomes of entry `e`. Stated for all `c`, so that the cases are not unfolded wherever
   the predicate is mentioned.
   */
  ghost predicate DecidedAs(
    t: Task, prefix: string, d: Ino, e: Dirent, chain: seq<Ino>, o: Outcome)
  {
    forall c :: c == chain ==> Judgeable(t.fs, prefix, d, e) && o == Judge(t.fs, t.opt.follow, prefix, d, e, c)
  }

  /** There is room for what lies below the next entry and for what follows it. */
  lemma NextEntryFits(t: Task, prefix: string, d: Ino, pos: nat, base: seq<Ino>, outermost: bool, o: Outcome)
    requires t.Ok() && d in t.fs.nodes && t.fs.nodes[d].Dir? && pos < |t.fs.nodes[d].entries|
    requires RoomFor(t, Open(prefix, d, pos), base, outermost)
    requires |prefix + t.fs.nodes[d].entries[pos].name| <= PATH_MAX
    requires DecidedAs(t, prefix, d, t.fs.nodes[d].entries[pos], base, o)
    ensures var e := t.fs.nodes[d].entries[pos];
      && (!o.Stop? ==> RoomFor(t, Open(prefix, d, pos + 1), base, outermost))
      && (o.IsDir? && t.opt.recursive ==>
            && RoomFor(t, Unopened(prefix + e.name, o.ino), o.chain, false)
            && (|prefix + e.name| == PATH_MAX ==> !CutOpens(t.fs, d, e)))
  {
    DescentDecreases(t.fs, t.opt.follow, prefix, d, pos, base);
    assert o == Judge(t.fs, t.opt.follow, prefix, d, t.fs.nodes[d].entries[pos], base);
    assert RoomOf(t, Open(prefix, d, pos), base, outermost);
  }

  /** The item that one entry contributes, if any. */
  ghost function ItemOf(o: Outcome, path: string): seq<Item> {
    match o
    case IsFile => [FileItem(path)]
    case IsLink => [LinkItem(path)]
    case IsError => [ErrorItem(path)]
    case IsDir(_, _) => [DirItem(path)]
    case _ => []
  }

  /** What is left to report at an entry: its item, what lies below it, and what follows it. */
  lemma NextEntryRest(t: Task, prefix: string, d: Ino, pos: nat, base: seq<Ino>, outermost: bool, o: Outcome)
    returns (all: seq<Item>, below: seq<Item>, after: seq<Item>)
    requires t.Ok() && d in t.fs.nodes && t.fs.nodes[d].Dir? && pos < |t.fs.nodes[d].entries|
    requires |prefix + t.fs.nodes[d].entries[pos].name| <= PATH_MAX
    requires DecidedAs(t, prefix, d, t.fs.nodes[d].entries[pos], base, o)
    ensures RestIs(t, Open(prefix, d, pos), base, outermost, all)
    ensures RestIs(t, Open(prefix, d, pos + 1), base, outermost, after)
    ensures var e := t.fs.nodes[d].entries[pos];
      && (if o.IsDir? && t.opt.recursive then RestIs(t, Unopened(prefix + e.name, o.ino), o.chain, false, below)
          else below == [])
      && all == if o.Stop? then [] else ItemOf(o, Cut(prefix + e.name)) + below + after
  {
    var e := t.fs.nodes[d].entries[pos];
    DescentDecreases(t.fs, t.opt.follow, prefix, d, pos, base);
    assert o == Judge(t.fs, t.opt.follow, prefix, d, t.fs.nodes[d].entries[pos], base);
    all := RestOf(t, Open(prefix, d, pos), base, outermost);
    after := RestOf(t, Open(prefix, d, pos + 1), base, outermost);
    below := if o.IsDir? && t.opt.recursive then RestOf(t, Unopened(prefix + e.name, o.ino), o.chain, false) else [];
  }

  // ----- The walk itself -----

  /** What the switch in Next decides about an entry; a subdirectory may be reached by following a link. */
  datatype Verdict = Plain(t: ListType) | SkipIt | StopIt | Subdir(ino: Ino, via: Option<Ino>)

  ghost function Meaning(v: Verdict, chain: seq<Ino>): Outcome {
    match v
    case Plain(t) => if t.ListFile? then IsFile else if t.ListLink? then IsLink else IsError
    case SkipIt => Skip
    case StopIt => Stop
    case Subdir(d, via) => IsDir(d, if via.Some? then [via.value] + chain else chain)
  }

  /** How many calls an entry can still answer without reporting anything. */
  ghost function Work(t: Task, f: Frame): nat {
    if f.Finished? || f.ino !in t.fs.nodes || !t.fs.nodes[f.ino].Dir? then 0
    else
      var n := |t.fs.nodes[f.ino].entries|;
      if f.Unopened? then n + 1 else if f.pos <= n then n - f.pos else 0
  }

  ghost function ItemFor(t: ListType, path: string): seq<Item> {
    match t
    case ListFile => [FileItem(path)]
    case ListLink => [LinkItem(path)]
    case ListError => [ErrorItem(path)]
    case ListDirectory => [DirItem(path)]
    case ListDone => []
  }

  /**
   One call of Next takes exactly what it reports from what the innermost entry had to report; a
   subdirectory to be entered comes with the walk that enters it.
   */
  ghost predicate Reported(w: Walk, w': Walk, t: ListType, path: string, inside: Walk)
    requires OnlyTopChanged(w, w')
  {
    var enters := t.ListDirectory? && w.task.opt.recursive;
    && (enters ==> Entered(w', inside, path)) && (t.ListDone? ==> w'.TopRest() == [])
    && w.TopRest() == ItemFor(t, Cut(path)) + (if enters then inside.TopRest() else []) + w'.TopRest()
  }

  /** The innermost entry reads a directory, has truncated its path and has just inherited its link. */
  ghost predicate Reading(w: Walk) {
    && w.stack != [] && w.Top().Open? && w.Top().ino in w.task.fs.nodes && w.task.fs.nodes[w.Top().ino].Dir?
    && w.stack[|w.stack| - 1].link == LinkBelow(w.stack) && w.chains[|w.stack| - 1] == w.Base()
  }

  ghost predicate AtEntry(w: Walk) {
    Reading(w) && w.Top().pos < |w.task.fs.nodes[w.Top().ino].entries|
  }

  ghost function EntryAt(w: Walk): Dirent
    requires AtEntry(w)
  {
    w.task.fs.nodes[w.Top().ino].entries[w.Top().pos]
  }

  lemma EntryGood(w: Walk)
    requires AtEntry(w)
    ensures Judgeable(w.task.fs, w.Top().text, w.Top().ino, EntryAt(w))
  {
    EntryJudgeable(w.task.fs, w.Top().text, w.Top().ino, w.Top().pos);
  }

  /** The path of the entry at hand fits and the verdict on the entry is the right one. */
  ghost predicate Judged(w: Walk, v: Verdict)
    requires AtEntry(w)
  {
    && |w.Top().text + EntryAt(w).name| <= PATH_MAX
    && DecidedAs(w.task, w.Top().text, w.Top().ino, EntryAt(w), w.Base(), Meaning(v, w.Base()))
  }

  /** A link is followed only if it is not already among those followed to get here. */
  lemma FollowedIsNew(w: Walk, v: Verdict)
    requires AtEntry(w) && Judged(w, v) && v.Subdir? && v.via.Some?
    ensures v.via.value !in w.Base()
  {
    EntryGood(w);
    var o := Judge(w.task.fs, w.task.opt.follow, w.Top().text, w.Top().ino, EntryAt(w), w.Base());
    assert |o.chain| == |w.Base()| + 1 && o.chain[0] == v.via.value;
  }

  /**
   In every state of every walk, the link of every stack entry starts a chain of live cells, and no
   link occurs in it twice.
   */
  lemma FollowedOnce(w: Walk, i: nat)
    requires i < |w.stack|
    ensures IsChain(w.links, w.stack[i].link, w.chains[i]) && Ring.Distinct(w.chains[i])
  {
    assert w.LinksOk(|w.stack|) && w.OnceOk(i);
    AnyLevelChain(LinksOf(w.stack), w.links, w.chains, i);
  }

  /** Setting done_. */
  lemma TopFinished(w: Walk) returns (w': Walk)
    requires w.stack != []
    ensures Replaced(w, w', w.stack[|w.stack| - 1].(done := true))
    ensures w'.Top() == Finished(w.Top().text) && w'.TopRest() == []
  {
    TopOk(w);
    w' := TopSet(w, w.stack[|w.stack| - 1].(done := true), Finished(w.Top().text), []);
  }

  lemma FinishedRest(w: Walk)
    requires w.stack != [] && w.stack[|w.stack| - 1].done
    ensures w.TopRest() == []
  {
    var n := |w.stack| - 1;
    TopOk(w);
    assert w.RestOk(n);
    RestUnique(w.task, w.Top(), w.BaseAt(n), n == 0, w.rests[n], []);
  }

  /** The first call on an entry whose directory cannot be opened. */
  lemma OpenFails(w: Walk)
    requires w.stack != [] && w.Top().Unopened? && w.task.OpenDir(Cut(w.Top().text)) == None
    ensures w.TopRest() == [ErrorItem(Cut(w.Top().text))]
  {
    var n := |w.stack| - 1;
    TopOk(w);
    assert w.RestOk(n) && w.PathOk(n);
    ReachedIsLed(w.task, w.Top().text, w.Top().ino);
    assert RestOf(w.task, w.Top(), w.BaseAt(n), n == 0) == [ErrorItem(Cut(w.Top().text))];
    RestUnique(w.task, w.Top(), w.BaseAt(n), n == 0, w.rests[n], [ErrorItem(Cut(w.Top().text))]);
  }

  /** Opening the directory; a separator is added to its path, except to the one given by the caller. */
  lemma TopOpened(w: Walk) returns (w': Walk)
    requires w.stack != [] && w.Top().Unopened? && w.task.OpenDir(Cut(w.Top().text)).Some?
    ensures w.task.OpenDir(Cut(w.Top().text)) == Some(w.Top().ino)
    ensures var prefix := if w.Outermost() then w.Top().text else w.Top().text + "/";
      && |prefix| <= PATH_MAX && NoNul(prefix)
      && Replaced(w, w', w.stack[|w.stack| - 1].(lister := Some(Lister(w.Top().ino, 0)), pathLength := |prefix|))
      && w'.Top() == Open(prefix, w.Top().ino, 0) && w'.TopRest() == w.TopRest()
  {
    var n, f := |w.stack| - 1, w.Top();
    TopOk(w);
    assert w.RestOk(n) && w.PathOk(n);
    var prefix := if w.Outermost() then f.text else f.text + "/";
    OpenedIsLed(w.task, f.text, f.ino);
    OpenedFrame(w.task, w.stack[n], f.text, f.ino, w.Base(), w.Outermost(), w.TopRest());
    var e := w.stack[n].(lister := Some(Lister(f.ino, 0)), pathLength := |prefix|);
    w' := TopSet(w, e, Open(prefix, f.ino, 0), w.TopRest());
  }

  /** The entry that stands one position further. */
  function Further(e: Entry): Entry {
    if e.lister.None? then e else e.(lister := Some(Lister(e.lister.value.ino, e.lister.value.pos + 1)))
  }

  /** An entry that ends the listing of its directory. */
  lemma NothingLeft(w: Walk, v: Verdict)
    requires AtEntry(w) && Judged(w, v) && v.StopIt?
    ensures w.TopRest() == []
  {
    var n, f := |w.stack| - 1, w.Top();
    assert w.RestOk(n);
    var o := Meaning(v, w.Base());
    var all, _, _ := NextEntryRest(w.task, f.text, f.ino, f.pos, w.Base(), w.Outermost(), o);
    RestUnique(w.task, f, w.Base(), w.Outermost(), w.TopRest(), all);
  }

  /** A path too long for the buffer is the last thing that a directory reports. */
  lemma TooLongReported(w: Walk)
    requires AtEntry(w) && |w.Top().text + EntryAt(w).name| > PATH_MAX
    ensures w.TopRest() == [ErrorItem(Cut(w.Top().text + EntryAt(w).name))]
  {
    var n, f := |w.stack| - 1, w.Top();
    assert w.RestOk(n);
    RestUnique(w.task, f, w.Base(), w.Outermost(), w.TopRest(), [ErrorItem(Cut(f.text + EntryAt(w).name))]);
  }

  lemma EndReported(w: Walk)
    requires Reading(w) && w.Top().pos == |w.task.fs.nodes[w.Top().ino].entries|
    ensures w.TopRest() == if w.task.fs.nodes[w.Top().ino].readFails then [ErrorItem(Cut(w.Top().text))] else []
  {
    var n, f := |w.stack| - 1, w.Top();
    assert w.RestOk(n);
    RestUnique(w.task, f, w.Base(), w.Outermost(), w.TopRest(),
               if w.task.fs.nodes[f.ino].readFails then [ErrorItem(Cut(f.text))] else []);
  }

  /** What lies below the entry at hand. */
  ghost predicate BelowIs(w: Walk, v: Verdict, below: seq<Item>)
    requires AtEntry(w) && Judged(w, v)
  {
    if v.Subdir? && w.task.opt.recursive
    then RestIs(w.task, Unopened(w.Top().text + EntryAt(w).name, v.ino), Meaning(v, w.Base()).chain, false,
                below)
    else below == []
  }

  /** What the entry at hand adds to what is left. */
  lemma EntryRest(w: Walk, v: Verdict) returns (below: seq<Item>, after: seq<Item>)
    requires AtEntry(w) && Judged(w, v) && !v.StopIt?
    ensures RestIs(w.task, Open(w.Top().text, w.Top().ino, w.Top().pos + 1), w.Base(), w.Outermost(), after)
    ensures BelowIs(w, v, below)
    ensures w.TopRest() == ItemOf(Meaning(v, w.Base()), Cut(w.Top().text + EntryAt(w).name)) + below + after
  {
    var f := w.Top();
    assert w.RestOk(|w.stack| - 1);
    var all;
    var o := Meaning(v, w.Base());
    assert !o.Stop? && (o.IsDir? <==> v.Subdir?);
    all, below, after := NextEntryRest(w.task, f.text, f.ino, f.pos, w.Base(), w.Outermost(), o);
    RestUnique(w.task, f, w.Base(), w.Outermost(), w.TopRest(), all);
  }

  /** Leaving the entry at hand behind. */
  lemma TopAdvanced(w: Walk, v: Verdict) returns (w': Walk, below: seq<Item>)
    requires AtEntry(w) && Judged(w, v) && !v.StopIt?
    ensures Replaced(w, w', Further(w.stack[|w.stack| - 1]))
    ensures w'.Top() == Open(w.Top().text, w.Top().ino, w.Top().pos + 1) && BelowIs(w, v, below)
    ensures w.TopRest() ==
      ItemOf(Meaning(v, w.Base()), Cut(w.Top().text + EntryAt(w).name)) + below + w'.TopRest()
  {
    var n, f := |w.stack| - 1, w.Top();
    TopOk(w);
    assert w.PathOk(n);
    NextEntryFits(w.task, f.text, f.ino, f.pos, w.Base(), w.Outermost(), Meaning(v, w.Base()));
    var after;
    below, after := EntryRest(w, v);
    w' := TopSet(w, Further(w.stack[n]), Open(f.text, f.ino, f.pos + 1), after);
  }

  /** The walk has left the entry at hand behind; `below` is what lies below that entry. */
  ghost predicate LeftBehind(w: Walk, v: Verdict, w': Walk, below: seq<Item>)
    requires AtEntry(w) && Judged(w, v)
  {
    var o := Meaning(v, w.Base());
    && OnlyTopChanged(w, w') && w'.Top() == Open(w.Top().text, w.Top().ino, w.Top().pos + 1) && BelowIs(w, v, below)
    && w.TopRest() == ItemOf(o, Cut(w.Top().text + EntryAt(w).name)) + below + w'.TopRest()
    && (o.IsDir? ==> w'.chains[|w'.stack| - 1] == o.chain)
  }

  /** A new entry on the stack can stand for the subdirectory at hand. */
  lemma SubdirFrame(w: Walk, v: Verdict)
    requires AtEntry(w) && Judged(w, v) && v.Subdir? && w.task.opt.recursive
    ensures var path := w.Top().text + EntryAt(w).name;
      && w.Top().text < path && RoomFor(w.task, Unopened(path, v.ino), Meaning(v, w.Base()).chain, false)
      && Represents(w.task, Entry(None, false, 0, None), Unopened(path, v.ino), false)
      && Leads(w.task, Unopened(path, v.ino))
  {
    var f, x, o := w.Top(), w.stack[|w.stack| - 1], Meaning(v, w.Base());
    TopOk(w);
    EntryGood(w);
    assert w.PathOk(|w.stack| - 1);
    NextEntryFits(w.task, f.text, f.ino, f.pos, w.Base(), w.Outermost(), o);
    EntryRepresented(w.task, x, f.text, f.ino, f.pos, w.Base(), w.Outermost(), o);
  }

  /** Entering the subdirectory at hand, from the walk `w1` that has left it behind. */
  lemma TopDescends(w: Walk, v: Verdict, below: seq<Item>, w1: Walk) returns (inside: Walk)
    requires AtEntry(w) && Judged(w, v) && v.Subdir? && w.task.opt.recursive && LeftBehind(w, v, w1, below)
    ensures Entered(w1, inside, w.Top().text + EntryAt(w).name) && inside.TopRest() == below
  {
    SubdirFrame(w, v);
    inside := TopEntered(w1, w.Top().text + EntryAt(w).name, v.ino, below);
  }

  lemma EntryRepresented(
    t: Task, x: Entry, prefix: string, d: Ino, pos: nat, base: seq<Ino>, outermost: bool, o: Outcome)
    requires t.Ok() && Represents(t, x, Open(prefix, d, pos), outermost) && pos < |t.fs.nodes[d].entries|
    requires Leads(t, Open(prefix, d, pos))
    requires |prefix + t.fs.nodes[d].entries[pos].name| <= PATH_MAX
    requires DecidedAs(t, prefix, d, t.fs.nodes[d].entries[pos], base, o)
    requires |prefix + t.fs.nodes[d].entries[pos].name| == PATH_MAX ==> !CutOpens(t.fs, d, t.fs.nodes[d].entries[pos])
    ensures var e := t.fs.nodes[d].entries[pos];
      o.IsDir? ==> Represents(t, Entry(None, false, 0, None), Unopened(prefix + e.name, o.ino), false) &&
                   Leads(t, Unopened(prefix + e.name, o.ino))
  {
    var e := t.fs.nodes[d].entries[pos];
    DescentDecreases(t.fs, t.opt.follow, prefix, d, pos, base);
    assert o == Judge(t.fs, t.opt.follow, prefix, d, t.fs.nodes[d].entries[pos], base);
    assert t.path <= prefix + e.name && t.Relative(prefix + e.name) == t.Relative(prefix) + e.name;
    if |prefix + e.name| == PATH_MAX {
      CutAsked(t, prefix, d, e);
    } else {
      EntryResolves(t.fs, t.root, t.Relative(prefix), d, pos);
      DescentTarget(t.fs, t.opt.follow, prefix, d, e, base);
    }
  }

  /** What the system says about a name in the directory behind `prefix`. */
  lemma NameAsked(t: Task, prefix: string, d: Ino, m: string)
    requires t.Ok() && t.path <= prefix && LeadsTo(t.fs, t.root, t.Relative(prefix), d) && m != "" && '/' !in m
    ensures t.path <= prefix + m && t.Lstat(prefix + m) == Child(t.fs, d, m)
    ensures t.Reach(prefix + m) == Target(t.fs, Child(t.fs, d, m))
  {
    assert t.path <= prefix + m && t.Relative(prefix + m) == t.Relative(prefix) + m;
    NameResolves(t.fs, t.root, t.Relative(prefix), d, m);
    assert m[|m| - 1] in m && !Separated(t.Relative(prefix) + m);
  }

  /** And about the prefix itself. */
  lemma PrefixAsked(t: Task, prefix: string, d: Ino)
    requires t.Ok() && t.path <= prefix && LeadsTo(t.fs, t.root, t.Relative(prefix), d)
    ensures t.Lstat(prefix) == Some(Dirent(".", d, DtDir, true)) && t.Reach(prefix) == Some(d)
  {}

  /** What the system says about the path of an entry that fills the buffer exactly. */
  lemma CutAsked(t: Task, prefix: string, d: Ino, e: Dirent)
    requires t.Ok() && t.path <= prefix && LeadsTo(t.fs, t.root, t.Relative(prefix), d)
    requires GoodName(e.name) && |prefix + e.name| == PATH_MAX
    ensures var p := Cut(prefix + e.name);
      && t.path <= p && t.Lstat(p) == Asked(t.fs, prefix, d, e) && (t.OpenDir(p).Some? <==> CutOpens(t.fs, d, e))
  {
    var m := e.name[..|e.name| - 1];
    assert Cut(prefix + e.name) == prefix + m;
    if m == "" {
      assert prefix + m == prefix;
      PrefixAsked(t, prefix, d);
    } else {
      NameAsked(t, prefix, d, m);
    }
  }

  /** The system answers about `path` as about entry `e`; stated for all `p` like DecidedAs. */
  ghost predicate Answers(t: Task, prefix: string, d: Ino, e: Dirent, path: string) {
    Judgeable(t.fs, prefix, d, e) && forall p :: p == path ==> t.Lstat(p) == Asked(t.fs, prefix, d, e)
  }

  lemma EntryAnswers(t: Task, prefix: string, d: Ino, pos: nat)
    requires t.Ok() && d in t.fs.nodes && t.fs.nodes[d].Dir? && pos < |t.fs.nodes[d].entries|
    requires t.path <= prefix && LeadsTo(t.fs, t.root, t.Relative(prefix), d)
    requires |prefix + t.fs.nodes[d].entries[pos].name| <= PATH_MAX
    ensures var e := t.fs.nodes[d].entries[pos]; Answers(t, prefix, d, e, Cut(prefix + e.name))
  {
    var e := t.fs.nodes[d].entries[pos];
    EntryJudgeable(t.fs, prefix, d, pos);
    if |prefix + e.name| == PATH_MAX {
      CutAsked(t, prefix, d, e);
    } else {
      NameAsked(t, prefix, d, e.name);
      assert GoodDir(t.fs, d);
      FindAt(t.fs.nodes[d].entries, pos);
    }
  }

  /** What the system says about the path of the entry at hand, as the buffer shows it. */
  lemma EntryInReach(w: Walk)
    requires AtEntry(w) && |w.Top().text + EntryAt(w).name| <= PATH_MAX
    ensures var f, e := w.Top(), EntryAt(w); Answers(w.task, f.text, f.ino, e, Cut(f.text + e.name))
  {
    TopOk(w);
    assert w.PathOk(|w.stack| - 1);
    EntryAnswers(w.task, w.Top().text, w.Top().ino, w.Top().pos);
  }

  lemma ChainInReach(w: Walk)
    requires Reading(w)
    ensures IsChain(w.links, w.stack[|w.stack| - 1].link, w.Base())
  {
    assert w.LinksOk(|w.stack|);
    LevelChain(LinksOf(w.stack), w.links, w.chains);
  }

  /** What the levels have to report after a level was popped or pushed. */
  ghost function Settled(rests: seq<seq<Item>>, pops: bool, pushes: bool, inside: Walk): seq<seq<Item>>
    requires rests != [] && (pushes ==> inside.stack != [])
  {
    if pops then rests[..|rests| - 1] else if pushes then rests + [inside.TopRest()] else rests
  }

  /** A step that reports nothing, followed by one that does. */
  lemma ReportedThrough(w: Walk, w1: Walk, w': Walk, t: ListType, path: string, inside: Walk)
    requires OnlyTopChanged(w, w1) && OnlyTopChanged(w1, w') && w1.TopRest() == w.TopRest()
    requires Reported(w1, w', t, path, inside)
    ensures OnlyTopChanged(w, w') && Reported(w, w', t, path, inside)
  {}

  class DirectoryListing {
    const task: Task
    const buffer: PathBuffer
    /** The start path does not fit the buffer. */
    var error: bool
    var stack: seq<Entry>
    var links: Heap
    var nextLink: Ptr
    /** What the fields above represent. */
    ghost var walk: Walk

    ghost predicate Valid()
      reads this, buffer, buffer.data
    {
      && walk.task == task && walk.stack == stack && walk.links == links && walk.nextLink == nextLink
      && buffer.Valid() && !error
      && (stack != [] ==> BufferHas(walk.Top()))
    }

    /** The buffer begins with the text of the innermost entry, and so with those of all entries. */
    ghost predicate BufferHas(f: Frame)
      requires buffer.Valid()
      reads this, buffer, buffer.data
    {
      buffer.Keeps(f.text) && |f.text| <= buffer.length && (f.Unopened? ==> buffer.Holds(f.text))
    }

    constructor (task: Task)
      requires task.Ok() && Listable(task)
      ensures this.task == task && stack != [] && links == map[]
      ensures error <==> |task.path| > PATH_MAX
      ensures !error ==> Valid() && walk.rests == [ListDir(task.fs, task.opt, task.path, task.root, [], true)]
      ensures fresh(buffer) && fresh(buffer.data)
    {
      this.task := task;
      buffer := new PathBuffer();
      stack, links, nextLink := [Entry(None, false, 0, None)], map[], 0;
      ghost var w: Walk := *;
      if |task.path| <= PATH_MAX { w := StartWalk(task); }
      walk := w;
      new;
      var ok := buffer.Add(task.path);
      error := !ok;
      assert "" + task.path == task.path;
    }

    method ResetLink()
      requires Valid() && stack != [] && !walk.Top().Unopened?
      modifies this
      ensures Valid() && OnlyTopChanged(old(walk), walk)
      ensures walk.frames == old(walk).frames && walk.rests == old(walk).rests
      ensures stack[|stack| - 1].link == LinkBelow(stack) && walk.chains[|stack| - 1] == walk.Base()
    {
      var n := |stack| - 1;
      var link := stack[n].link;
      var parentLink := if n == 0 then None else stack[n - 1].link;
      walk := TopUnlinked(walk);
      if link.Some? && (n == 0 || parentLink != link) {
        assert link.value in links;
        links := links - {link.value};
        link := None;
      }
      if n > 0 {
        link := parentLink;
      }
      stack := stack[n := stack[n].(link := link)];
    }

    /** The scan for a loop: is `ino` among the links followed to get here? */
    method Followed(link: Option<Ptr>, ino: Ino, ghost chain: seq<Ino>) returns (found: bool)
      requires IsChain(links, link, chain)
      ensures found <==> ino in chain
    {
      var previous := link;
      ghost var k := 0;
      while previous.Some?
        invariant k <= |chain| && IsChain(links, previous, chain[k..]) && ino !in chain[..k]
        decreases |chain| - k
      {
        if links[previous.value].ino == ino {
          assert chain[k..][0] == chain[k];
          return true;
        }
        assert chain[k..][1..] == chain[k + 1..];
        previous := links[previous.value].next;
        k := k + 1;
      }
      return false;
    }

    /** The start of each step on an open directory: truncate the path and give up the last link. */
    method Rewind()
      requires Valid() && stack != [] && walk.Top().Open?
      modifies this, buffer, buffer.data
      ensures Valid() && OnlyTopChanged(old(walk), walk)
      ensures walk.frames == old(walk).frames && walk.rests == old(walk).rests
      ensures Reading(walk) && buffer.Holds(walk.Top().text)
    {
      TopOk(walk);
      buffer.Reset(stack[|stack| - 1].pathLength);
      ResetLink();
    }

    /** The switch on the type of an entry, asking the system about unknown entries and followed links. */
    method Examine(ghost dir: Ino, ghost prefix: string, e: Dirent, path: string, link: Option<Ptr>,
                   ghost chain: seq<Ino>)
      returns (v: Verdict)
      requires Answers(task, prefix, dir, e, path) && IsChain(links, link, chain)
      ensures DecidedAs(task, prefix, dir, e, chain, Meaning(v, chain))
      ensures v.Plain? ==> v.t.ListFile? || v.t.ListLink? || v.t.ListError?
    {
      match e.dtype
      case DtDir => return if IsDot(e.name) then SkipIt else Subdir(e.ino, None);
      case DtReg => return Plain(ListFile);
      case DtOther => return StopIt;
      case _ =>
        if e.dtype.DtLnk? && !task.opt.follow {
          return Plain(ListLink);
        }
        var info := task.Lstat(path);
        if info.None? || !info.value.lstatOk {
          return Plain(ListError);
        }
        var ino := info.value.ino;
        var node := task.fs.nodes[ino];
        if task.opt.follow && node.Link? {
          var loop := Followed(link, ino, chain);
          if loop {
            return Plain(ListLink);
          }
          if node.target.None? {
            return Plain(ListLink);
          }
          var target := node.target.value;
          node := task.fs.nodes[target];
          if node.Dir? {
            assert !IsDot(e.name);
            return Subdir(target, Some(ino));
          }
        }
        if node.Dir? {
          return if IsDot(e.name) then SkipIt else Subdir(ino, None);
        } else if node.Reg? {
          return Plain(ListFile);
        } else if node.Link? {
          return Plain(ListLink);
        }
        return StopIt;
    }

    /** The directory reached through a link gets a longer chain. */
    method FollowLink(ino: Ino)
      requires Valid() && stack != [] && walk.Top().Open? && stack[|stack| - 1].link == LinkBelow(stack)
      requires ino !in walk.chains[|stack| - 1]
      modifies this
      ensures Valid() && OnlyTopChanged(old(walk), walk)
      ensures walk.frames == old(walk).frames && walk.rests == old(walk).rests
      ensures walk.chains[|stack| - 1] == [ino] + old(walk).chains[|stack| - 1]
    {
      var n := |stack| - 1;
      walk := TopFollowing(walk, ino);
      links := links[nextLink := Cell(ino, stack[n].link)];
      stack := stack[n := stack[n].(link := Some(nextLink))];
      nextLink := nextLink + 1;
    }

    /** The first call on an entry opens its directory and, below the root, adds the separator. */
    method OpenTop() returns (ok: bool)
      requires Valid() && stack != [] && walk.Top().Unopened?
      modifies this, buffer, buffer.data
      ensures Valid() && OnlyTopChanged(old(walk), walk)
      ensures ok ==> walk.Top().Open? && walk.Top().pos == 0 && walk.Top().ino == old(walk).Top().ino &&
                     walk.TopRest() == old(walk).TopRest()
      ensures !ok ==> Reported(old(walk), walk, ListError, old(walk).Top().text, old(walk)) &&
                      buffer.Reads(Cut(old(walk).Top().text))
    {
      var path := buffer.AsString();
      buffer.HeldIsRead(walk.Top().text);
      assert path == Cut(walk.Top().text);
      var d := task.OpenDir(path);
      if d.None? {
        OpenFails(walk);
        FinishWith(ListError, walk.Top().text);
        return false;
      }
      StartReading(d.value);
      return true;
    }

    method StartReading(d: Ino)
      requires Valid() && stack != [] && walk.Top().Unopened? && task.OpenDir(Cut(walk.Top().text)) == Some(d)
      modifies this, buffer, buffer.data
      ensures Valid() && OnlyTopChanged(old(walk), walk) && walk.TopRest() == old(walk).TopRest()
      ensures walk.Top().Open? && walk.Top().pos == 0 && walk.Top().ino == old(walk).Top().ino
    {
      var n := |stack| - 1;
      ghost var text := walk.Top().text;
      walk := TopOpened(walk);
      Separate(n > 0, text);
      stack := stack[n := stack[n].(lister := Some(Lister(d, 0)), pathLength := buffer.length)];
    }

    method Separate(deep: bool, ghost path: string)
      requires buffer.Holds(path) && |path| + (if deep then 1 else 0) <= PATH_MAX
      modifies buffer, buffer.data
      ensures buffer.Holds(if deep then path + "/" else path)
    {
      if deep {
        var added := buffer.Add("/");
        assert added;
      }
    }

    method AppendName(name: string, ghost text: string) returns (ok: bool, path: string)
      requires buffer.Holds(text) && NoNul(name)
      modifies buffer, buffer.data
      ensures buffer.Keeps(text) && |text| <= buffer.length
      ensures path == Cut(text + name) && buffer.Reads(path)
      ensures ok <==> |text + name| <= PATH_MAX
      ensures ok ==> buffer.Holds(text + name)
    {
      ok := buffer.Add(name);
      path := buffer.AsString();
    }

    /** Appends the name of the entry just read and, if the path fits, decides what the entry is. */
    method ReadEntry(e: Dirent) returns (ok: bool, v: Verdict)
      requires Valid() && AtEntry(walk) && e == EntryAt(walk) && buffer.Holds(walk.Top().text)
      modifies buffer, buffer.data
      ensures Valid() && buffer.Reads(Cut(walk.Top().text + e.name))
      ensures ok ==> buffer.Holds(walk.Top().text + e.name) && Judged(walk, v)
      ensures !ok ==> |walk.Top().text + e.name| > PATH_MAX
      ensures v.Plain? ==> v.t.ListFile? || v.t.ListLink? || v.t.ListError?
    {
      ghost var f := walk.Top();
      EntryGood(walk);
      v := StopIt;
      var path;
      ok, path := AppendName(e.name, f.text);
      if ok {
        EntryInReach(walk);
        ChainInReach(walk);
        v := Examine(f.ino, f.text, e, path, stack[|stack| - 1].link, walk.Base());
      }
    }

    /** The buffer shows the path reported, and holds it when it may be entered. */
    ghost predicate Shows(t: ListType, path: string)
      reads this, buffer, buffer.data
    {
      (!t.ListDone? ==> buffer.Reads(Cut(path))) && (t.ListDirectory? ==> buffer.Holds(path))
    }

    /** DirectoryListingEntry::Next on the innermost entry. */
    method Next() returns (t: ListType, ghost path: string, ghost inside: Walk)
      requires Valid() && stack != []
      modifies this, buffer, buffer.data
      ensures Valid() && OnlyTopChanged(old(walk), walk) && Reported(old(walk), walk, t, path, inside)
      ensures Shows(t, path)
      decreases Work(task, walk.Top()), 3
    {
      path, inside := "", walk;
      TopOk(walk);
      if stack[|stack| - 1].done {
        FinishedRest(walk);
        return ListDone, path, inside;
      }
      if stack[|stack| - 1].lister.None? {
        path := walk.Top().text;
        var ok := OpenTop();
        if !ok {
          return ListError, path, inside;
        }
      }
      ghost var w := walk;
      t, path, inside := ReadNext();
      ReportedThrough(old(walk), w, walk, t, path, inside);
    }

    /** The part of Next that reads the next entry of an open directory. */
    method ReadNext() returns (t: ListType, ghost path: string, ghost inside: Walk)
      requires Valid() && stack != [] && walk.Top().Open?
      modifies this, buffer, buffer.data
      ensures Valid() && OnlyTopChanged(old(walk), walk) && Reported(old(walk), walk, t, path, inside)
      ensures Shows(t, path)
      decreases Work(task, walk.Top()), 2
    {
      Rewind();
      ghost var w := walk;
      t, path, inside := Proceed();
      ReportedThrough(old(walk), w, walk, t, path, inside);
    }

    method Proceed() returns (t: ListType, ghost path: string, ghost inside: Walk)
      requires Valid() && Reading(walk) && buffer.Holds(walk.Top().text)
      modifies this, buffer, buffer.data
      ensures Valid() && OnlyTopChanged(old(walk), walk) && Reported(old(walk), walk, t, path, inside)
      ensures Shows(t, path)
      decreases Work(task, walk.Top()), 1
    {
      path, inside := walk.Top().text, walk;
      TopOk(walk);
      var Lister(d, pos) := stack[|stack| - 1].lister.value;
      if pos == |task.fs.nodes[d].entries| {
        EndReported(walk);
        buffer.HeldIsRead(path);
        t := if task.fs.nodes[d].readFails then ListError else ListDone;
        FinishWith(t, path);
        return;
      }
      var e := task.fs.nodes[d].entries[pos];
      var ok, v := ReadEntry(e);
      if !ok {
        TooLongReported(walk);
        path, t := path + e.name, ListError;
        FinishWith(t, path);
        return;
      }
      t, path, inside := Act(e, v);
    }

    /** The rest of Next, once the entry read has been judged. */
    method Act(e: Dirent, v: Verdict) returns (t: ListType, ghost path: string, ghost inside: Walk)
      requires Valid() && AtEntry(walk) && e == EntryAt(walk) && Judged(walk, v)
      requires buffer.Holds(walk.Top().text + e.name)
      requires v.Plain? ==> v.t.ListFile? || v.t.ListLink? || v.t.ListError?
      modifies this, buffer, buffer.data
      ensures Valid() && OnlyTopChanged(old(walk), walk) && Reported(old(walk), walk, t, path, inside)
      ensures Shows(t, path)
      decreases Work(task, walk.Top()), 0
    {
      path, inside := walk.Top().text + e.name, walk;
      buffer.HeldIsRead(path);
      if v.StopIt? {
        NothingLeft(walk, v);
        t := ListDone;
        FinishWith(t, path);
      } else if v.SkipIt? {
        PassOver(e, v);
        ghost var w := walk;
        t, path, inside := Next();
        ReportedThrough(old(walk), w, walk, t, path, inside);
      } else {
        t, inside := Report(e, v);
      }
    }

    /** Sets done_. */
    method Finish()
      requires Valid() && stack != []
      modifies this`stack, this`walk
      ensures Valid() && OnlyTopChanged(old(walk), walk) && walk.TopRest() == []
    {
      walk := TopFinished(walk);
      stack := stack[|stack| - 1 := stack[|stack| - 1].(done := true)];
    }

    /** Sets done_ with the last thing that the entry reports. */
    method FinishWith(t: ListType, ghost path: string)
      requires Valid() && stack != [] && walk.TopRest() == ItemFor(t, Cut(path)) && !t.ListDirectory?
      modifies this`stack, this`walk
      ensures Valid() && OnlyTopChanged(old(walk), walk) && Reported(old(walk), walk, t, path, old(walk))
    {
      Finish();
    }

    /** readdir has moved past the entry just judged. */
    method Advance(ghost v: Verdict) returns (ghost w: Walk, ghost below: seq<Item>)
      requires Valid() && AtEntry(walk) && Judged(walk, v) && !v.StopIt?
      modifies this`stack, this`walk
      ensures Valid() && w == old(walk) && Replaced(w, walk, Further(w.stack[|w.stack| - 1]))
      ensures walk.Top() == Open(w.Top().text, w.Top().ino, w.Top().pos + 1) && BelowIs(w, v, below)
      ensures w.TopRest() ==
        ItemOf(Meaning(v, w.Base()), Cut(w.Top().text + EntryAt(w).name)) + below + walk.TopRest()
    {
      w := walk;
      walk, below := TopAdvanced(w, v);
      stack := stack[|stack| - 1 := Further(stack[|stack| - 1])];
    }

    /** Leaves the entry just judged behind; a link that leads to a directory is followed. */
    method Leave(e: Dirent, v: Verdict) returns (ghost below: seq<Item>)
      requires Valid() && AtEntry(walk) && e == EntryAt(walk) && Judged(walk, v) && !v.StopIt?
      modifies this
      ensures Valid() && LeftBehind(old(walk), v, walk, below)
    {
      ghost var w;
      w, below := Advance(v);
      if v.Subdir? && v.via.Some? {
        FollowedIsNew(w, v);
        FollowLink(v.via.value);
      }
      assert v.Subdir? ==> walk.chains[|stack| - 1] == Meaning(v, w.Base()).chain;
    }

    /** Leaves an entry behind that contributes nothing. */
    method PassOver(e: Dirent, v: Verdict)
      requires Valid() && AtEntry(walk) && e == EntryAt(walk) && Judged(walk, v) && v.SkipIt?
      modifies this
      ensures Valid() && OnlyTopChanged(old(walk), walk) && walk.TopRest() == old(walk).TopRest()
      ensures Work(task, walk.Top()) < Work(task, old(walk).Top())
    {
      ghost var below := Leave(e, v);
      assert below == [] && ItemOf(Meaning(v, old(walk).Base()), Cut(old(walk).Top().text + e.name)) == [];
    }

    /** Reports the entry just judged. */
    method Report(e: Dirent, v: Verdict) returns (t: ListType, ghost inside: Walk)
      requires Valid() && AtEntry(walk) && e == EntryAt(walk) && Judged(walk, v) && !v.StopIt? && !v.SkipIt?
      requires v.Plain? ==> v.t.ListFile? || v.t.ListLink? || v.t.ListError?
      modifies this
      ensures Valid() && OnlyTopChanged(old(walk), walk)
      ensures Reported(old(walk), walk, t, old(walk).Top().text + e.name, inside)
    {
      ghost var below := Leave(e, v);
      inside := walk;
      t := if v.Plain? then v.t else ListDirectory;
      if v.Subdir? && task.opt.recursive {
        inside := TopDescends(old(walk), v, below, walk);
      }
    }

    method CurrentPath(ghost path: string) returns (s: string)
      requires buffer.Valid()
      ensures buffer.Reads(Cut(path)) ==> s == Cut(path)
    {
      s := buffer.AsString();
    }

    /** Push of a new entry for the subdirectory whose path the buffer holds. */
    method Push(ghost path: string, ghost inside: Walk)
      requires Valid() && stack != [] && Entered(walk, inside, path) && buffer.Holds(path)
      modifies this
      ensures Valid() && walk == inside
    {
      walk := inside;
      stack := stack + [Entry(None, false, 0, None)];
    }

    /** What ListNext does to the stack after a call of Next. */
    method Settle(t: ListType, ghost path: string, ghost inside: Walk)
      requires Valid() && stack != []
      requires t.ListDirectory? && task.opt.recursive ==> Entered(walk, inside, path) && buffer.Holds(path)
      modifies this
      ensures Valid()
      ensures walk.rests == Settled(old(walk.rests), t.ListDone?, t.ListDirectory? && task.opt.recursive, inside)
    {
      if t.ListDone? {
        Pop();
      } else if t.ListDirectory? && task.opt.recursive {
        Push(path, inside);
      }
    }

    /** Pop and the destructor of the entry. */
    method Pop()
      requires Valid() && stack != []
      modifies this
      ensures Valid() && stack == old(stack[..|stack| - 1]) && walk.rests == old(walk.rests[..|stack| - 1])
    {
      var n := |stack| - 1;
      var link := stack[n].link;
      var parentLink := if n == 0 then None else stack[n - 1].link;
      ghost var w := walk;
      walk := TopRemoved(w);
      if n > 0 { buffer.KeepsPrefix(walk.Top().text, w.Top().text); }
      if link.Some? && (n == 0 || parentLink != link) {
        assert link.value in links;
        links := links - {link.value};
      }
      stack := stack[..n];
    }
  }
}
