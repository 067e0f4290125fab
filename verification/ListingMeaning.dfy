/** What a listing means: every entry within reach is there, and an item names the entry it was read from. */
module ListingMeaning {
  import opened Basics
  import opened PathBuffers
  import opened FileSystem
  import opened Listing

  // ----- What an entry should be reported as -----

  /** What a file is, whatever led to it: nothing for "." and "..", and the end for a special file. */
  ghost function ByNode(n: Node, ino: Ino, chain: seq<Ino>, dot: bool): Outcome {
    match n
    case Reg => IsFile
    case Dir(_, _, _) => if dot then Skip else IsDir(ino, chain)
    case Link(_) => IsLink
    case Special => Stop
  }

  /** The entry's type does not have to be asked for. */
  ghost predicate Told(follow: bool, e: Dirent) {
    !e.dtype.DtUnknown? && !(e.dtype.DtLnk? && follow)
  }

  /**
   What is to be reported for an entry, from the files alone: the entry's own file when its type is
   known; otherwise the file that lstat finds, and the end of a link that is to be followed, is not
   broken and was not yet followed on the way.
   */
  ghost function Expected(fs: FS, follow: bool, prefix: string, d: Ino, e: Dirent, chain: seq<Ino>): Outcome
    requires Judgeable(fs, prefix, d, e)
  {
    var asked := Asked(fs, prefix, d, e);
    if Told(follow, e) then ByNode(fs.nodes[e.ino], e.ino, chain, IsDot(e.name))
    else if asked.None? || !asked.value.lstatOk then IsError
    else
      var l, n := asked.value.ino, fs.nodes[asked.value.ino];
      if follow && n.Link? && n.target.Some? && l !in chain
      then ByNode(fs.nodes[n.target.value], n.target.value, [l] + chain, IsDot(e.name))
      else ByNode(n, l, chain, IsDot(e.name))
  }

  /** The walk decides every entry as it should. */
  lemma JudgedAsExpected(fs: FS, follow: bool, prefix: string, d: Ino, e: Dirent, chain: seq<Ino>)
    requires Judgeable(fs, prefix, d, e)
    ensures Judge(fs, follow, prefix, d, e, chain) == Expected(fs, follow, prefix, d, e, chain)
  {}

  // ----- No entry is missing -----

  /** An entry among the first `k` of directory `d` ends the listing of that directory. */
  ghost predicate StopsBefore(fs: FS, follow: bool, prefix: string, d: Ino, chain: seq<Ino>, k: nat)
    requires WellFormed(fs) && d in fs.nodes && fs.nodes[d].Dir? && k <= |fs.nodes[d].entries|
  {
    exists j :: 0 <= j < k && StopsAt(fs, follow, prefix, d, chain, j)
  }

  ghost predicate StopsAt(fs: FS, follow: bool, prefix: string, d: Ino, chain: seq<Ino>, j: nat)
    requires WellFormed(fs) && d in fs.nodes && fs.nodes[d].Dir? && j < |fs.nodes[d].entries|
  {
    var e := fs.nodes[d].entries[j];
    EntryJudgeable(fs, prefix, d, j);
    |prefix + e.name| > PATH_MAX || Expected(fs, follow, prefix, d, e, chain).Stop?
  }

  /**
   The item at a place: `ks` are the positions of the entries to descend through, the last one that
   of the entry reported. A directory that cannot be opened reports an error as its entry 0, one that
   cannot be read to the end as the entry after its last. A directory whose path fills the buffer
   exactly reports an error as its entry 0, too.
   */
  ghost function ItemAt(
    fs: FS, opt: Options, path: string, d: Ino, chain: seq<Ino>, outermost: bool, ks: seq<nat>): Option<Item>
    requires WellFormed(fs) && d in fs.nodes
    decreases ks, 1
  {
    if ks == [] then None
    else if !fs.nodes[d].Dir? || !fs.nodes[d].openable then (if ks == [0] then Some(ErrorItem(Cut(path))) else None)
    else ItemIn(fs, opt, if outermost then path else path + "/", d, chain, ks)
  }

  ghost function ItemIn(fs: FS, opt: Options, prefix: string, d: Ino, chain: seq<Ino>, ks: seq<nat>): Option<Item>
    requires WellFormed(fs) && d in fs.nodes && fs.nodes[d].Dir? && ks != []
    decreases ks, 0
  {
    var k, es := ks[0], fs.nodes[d].entries;
    if k > |es| || StopsBefore(fs, opt.follow, prefix, d, chain, k) then None
    else if k == |es| then (if |ks| == 1 && fs.nodes[d].readFails then Some(ErrorItem(Cut(prefix))) else None)
    else
      DescentDecreases(fs, opt.follow, prefix, d, k, chain);
      JudgedAsExpected(fs, opt.follow, prefix, d, es[k], chain);
      var o, path := Expected(fs, opt.follow, prefix, d, es[k], chain), prefix + es[k].name;
      if |path| > PATH_MAX then (if |ks| == 1 then Some(ErrorItem(Cut(path))) else None)
      else if |ks| == 1 then (if ItemOf(o, Cut(path)) == [] then None else Some(ItemOf(o, Cut(path))[0]))
      else if !o.IsDir? || !opt.recursive then None
      else if |path| == PATH_MAX then (if ks[1..] == [0] then Some(ErrorItem(Cut(path))) else None)
      else ItemAt(fs, opt, path, o.ino, o.chain, false, ks[1..])
  }

  /** Whatever is listed has a place. */
  lemma {:induction false} PlaceInDir(
    fs: FS, opt: Options, path: string, d: Ino, chain: seq<Ino>, outermost: bool, x: Item) returns (ks: seq<nat>)
    requires WellFormed(fs) && d in fs.nodes && x in ListDir(fs, opt, path, d, chain, outermost)
    ensures ItemAt(fs, opt, path, d, chain, outermost, ks) == Some(x)
    decreases |Followable(fs, chain)|, Height(fs, d), 1, 0
  {
    if !fs.nodes[d].Dir? || !fs.nodes[d].openable {
      ks := [0];
    } else {
      ks := PlaceFrom(fs, opt, if outermost then path else path + "/", d, 0, chain, x);
    }
  }

  lemma {:induction false} PlaceFrom(
    fs: FS, opt: Options, prefix: string, d: Ino, i: nat, chain: seq<Ino>, x: Item) returns (ks: seq<nat>)
    requires WellFormed(fs) && d in fs.nodes && fs.nodes[d].Dir? && i <= |fs.nodes[d].entries|
    requires x in ListFrom(fs, opt, prefix, d, i, chain) && !StopsBefore(fs, opt.follow, prefix, d, chain, i)
    ensures ks != [] && ItemIn(fs, opt, prefix, d, chain, ks) == Some(x)
    decreases |Followable(fs, chain)|, Height(fs, d), 0, |fs.nodes[d].entries| - i
  {
    if i == |fs.nodes[d].entries| {
      ks := [i];
    } else {
      var e := fs.nodes[d].entries[i];
      DescentDecreases(fs, opt.follow, prefix, d, i, chain);
      JudgedAsExpected(fs, opt.follow, prefix, d, e, chain);
      var o := Judge(fs, opt.follow, prefix, d, e, chain);
      if |prefix + e.name| > PATH_MAX {
        return [i];
      }
      ListFromStep(fs, opt, prefix, d, i, chain, o);
      assert !StopsAt(fs, opt.follow, prefix, d, chain, i);
      if x in ItemOf(o, Cut(prefix + e.name)) {
        ks := [i];
      } else if o.IsDir? && opt.recursive && x in BelowEntry(fs, opt, prefix + e.name, o) {
        var rest := [0];
        if |prefix + e.name| < PATH_MAX {
          rest := PlaceInDir(fs, opt, prefix + e.name, o.ino, o.chain, false, x);
        }
        ks := [i] + rest;
        assert ks[1..] == rest;
      } else {
        ks := PlaceFrom(fs, opt, prefix, d, i + 1, chain, x);
      }
    }
  }

  /** What lies below a directory found as `path`. */
  ghost function BelowEntry(fs: FS, opt: Options, path: string, o: Outcome): seq<Item>
    requires WellFormed(fs) && o.IsDir? && o.ino in fs.nodes
  {
    if |path| == PATH_MAX then [ErrorItem(Cut(path))] else ListDir(fs, opt, path, o.ino, o.chain, false)
  }

  /** The listing from an entry on: its item, what lies below it, and what follows it. */
  lemma ListFromStep(fs: FS, opt: Options, prefix: string, d: Ino, i: nat, chain: seq<Ino>, o: Outcome)
    requires WellFormed(fs) && d in fs.nodes && fs.nodes[d].Dir? && i < |fs.nodes[d].entries|
    requires Judgeable(fs, prefix, d, fs.nodes[d].entries[i])
    requires o == Judge(fs, opt.follow, prefix, d, fs.nodes[d].entries[i], chain)
    requires |prefix + fs.nodes[d].entries[i].name| <= PATH_MAX
    ensures o.IsDir? ==> o.ino in fs.nodes
    ensures var path := prefix + fs.nodes[d].entries[i].name;
      forall x :: x in ListFrom(fs, opt, prefix, d, i, chain) <==>
                  (!o.Stop? && (x in ItemOf(o, Cut(path)) || x in ListFrom(fs, opt, prefix, d, i + 1, chain) ||
                                (o.IsDir? && opt.recursive && x in BelowEntry(fs, opt, path, o))))
  {
    DescentDecreases(fs, opt.follow, prefix, d, i, chain);
  }

  /** Whatever has a place is listed. */
  lemma {:induction false} DirHasPlace(
    fs: FS, opt: Options, path: string, d: Ino, chain: seq<Ino>, outermost: bool, ks: seq<nat>)
    requires WellFormed(fs) && d in fs.nodes && ItemAt(fs, opt, path, d, chain, outermost, ks).Some?
    ensures ItemAt(fs, opt, path, d, chain, outermost, ks).value in ListDir(fs, opt, path, d, chain, outermost)
    decreases ks, 1, 0
  {
    if fs.nodes[d].Dir? && fs.nodes[d].openable {
      FromHasPlace(fs, opt, if outermost then path else path + "/", d, 0, chain, ks);
    }
  }

  lemma {:induction false} FromHasPlace(
    fs: FS, opt: Options, prefix: string, d: Ino, i: nat, chain: seq<Ino>, ks: seq<nat>)
    requires WellFormed(fs) && d in fs.nodes && fs.nodes[d].Dir? && ks != [] && i <= ks[0] <= |fs.nodes[d].entries|
    requires ItemIn(fs, opt, prefix, d, chain, ks).Some?
    ensures ItemIn(fs, opt, prefix, d, chain, ks).value in ListFrom(fs, opt, prefix, d, i, chain)
    decreases ks, 0, ks[0] - i
  {
    if i < |fs.nodes[d].entries| {
      var e := fs.nodes[d].entries[i];
      DescentDecreases(fs, opt.follow, prefix, d, i, chain);
      JudgedAsExpected(fs, opt.follow, prefix, d, e, chain);
      var o := Judge(fs, opt.follow, prefix, d, e, chain);
      if |prefix + e.name| <= PATH_MAX { ListFromStep(fs, opt, prefix, d, i, chain, o); }
      if i < ks[0] {
        assert !StopsAt(fs, opt.follow, prefix, d, chain, i);
        FromHasPlace(fs, opt, prefix, d, i + 1, chain, ks);
      } else if |ks| > 1 && |prefix + e.name| < PATH_MAX {
        DirHasPlace(fs, opt, prefix + e.name, o.ino, o.chain, false, ks[1..]);
      }
    }
  }

  /** The listing contains exactly the items that have a place, cycles of links notwithstanding. */
  lemma ListedIffPlaced(fs: FS, opt: Options, root: Ino, path: string, x: Item)
    requires WellFormed(fs) && root in fs.nodes && Separated(path)
    ensures x in ListDir(fs, opt, path, root, [], true) <==>
            exists ks :: ItemAt(fs, opt, path, root, [], true, ks) == Some(x)
  {
    if x in ListDir(fs, opt, path, root, [], true) {
      var ks := PlaceInDir(fs, opt, path, root, [], true, x);
    }
    forall ks | ItemAt(fs, opt, path, root, [], true, ks) == Some(x)
      ensures x in ListDir(fs, opt, path, root, [], true)
    {
      DirHasPlace(fs, opt, path, root, [], true, ks);
    }
  }

  // ----- No item lies -----

  /** The path of an item, looked up from the listed directory, leads to a file of the reported kind. */
  ghost predicate Truthful(fs: FS, follow: bool, root: Ino, path: string, x: Item) {
    !x.DoneItem? &&
    (x.ErrorItem? || (path <= x.path && KindAt(fs, follow, Lookup(fs, root, x.path[|path|..]), x)))
  }

  ghost predicate KindAt(fs: FS, follow: bool, e: Option<Dirent>, x: Item) {
    && e.Some? && e.value.ino in fs.nodes
    && var node, end := fs.nodes[e.value.ino], Target(fs, e);
       match x
       case FileItem(_) => end.Some? && end.value in fs.nodes && fs.nodes[end.value].Reg? && (!follow ==> node.Reg?)
       case DirItem(_) => end.Some? && end.value in fs.nodes && fs.nodes[end.value].Dir? && (!follow ==> node.Dir?)
       case LinkItem(_) => node.Link?
       case ErrorItem(_) => true
       case DoneItem => false
  }

  /** An entry of a directory, reported under `prefix` and its name; `chain` are the links followed on the way. */
  datatype Spot = Spot(prefix: string, d: Ino, e: Dirent, chain: seq<Ino>) {
    function Path(): string { prefix + e.name }

    /** The path loses its last character in the buffer. */
    predicate Full() { |Path()| == PATH_MAX }
  }

  /** The entry at a place, if it is one of an entry. */
  ghost function SpotAt(
    fs: FS, opt: Options, path: string, d: Ino, chain: seq<Ino>, outermost: bool, ks: seq<nat>): Option<Spot>
    requires WellFormed(fs) && d in fs.nodes
    decreases ks, 1
  {
    if ks == [] || !fs.nodes[d].Dir? || !fs.nodes[d].openable then None
    else SpotIn(fs, opt, if outermost then path else path + "/", d, chain, ks)
  }

  ghost function SpotIn(fs: FS, opt: Options, prefix: string, d: Ino, chain: seq<Ino>, ks: seq<nat>): Option<Spot>
    requires WellFormed(fs) && d in fs.nodes && fs.nodes[d].Dir? && ks != []
    decreases ks, 0
  {
    var k, es := ks[0], fs.nodes[d].entries;
    if k >= |es| || StopsBefore(fs, opt.follow, prefix, d, chain, k) then None
    else
      DescentDecreases(fs, opt.follow, prefix, d, k, chain);
      JudgedAsExpected(fs, opt.follow, prefix, d, es[k], chain);
      var o, path := Expected(fs, opt.follow, prefix, d, es[k], chain), prefix + es[k].name;
      if |ks| == 1 then Some(Spot(prefix, d, es[k], chain))
      else if o.IsDir? && opt.recursive && |path| < PATH_MAX then SpotAt(fs, opt, path, o.ino, o.chain, false, ks[1..])
      else None
  }

  /** The prefix of an entry leads to its directory, and its item is what is expected of the entry. */
  ghost predicate SpotOk(fs: FS, opt: Options, root: Ino, top: string, sp: Spot, x: Option<Item>) {
    && sp.d in fs.nodes && fs.nodes[sp.d].Dir? && Judgeable(fs, sp.prefix, sp.d, sp.e)
    && Child(fs, sp.d, sp.e.name) == Some(sp.e)
    && top <= sp.prefix && LeadsTo(fs, root, sp.prefix[|top|..], sp.d)
    && x == ItemOfSpot(fs, opt, sp)
  }

  /** The item of an entry, if any. */
  ghost function ItemOfSpot(fs: FS, opt: Options, sp: Spot): Option<Item>
    requires Judgeable(fs, sp.prefix, sp.d, sp.e)
  {
    var items := ItemOf(Expected(fs, opt.follow, sp.prefix, sp.d, sp.e, sp.chain), Cut(sp.Path()));
    if |sp.Path()| > PATH_MAX then Some(ErrorItem(Cut(sp.Path())))
    else if items == [] then None else Some(items[0])
  }

  lemma {:induction false} SpotInDir(fs: FS, opt: Options, root: Ino, top: string, path: string, d: Ino,
                                     chain: seq<Ino>, outermost: bool, ks: seq<nat>)
    requires WellFormed(fs) && d in fs.nodes && top <= path
    requires if outermost then path == top && d == root
             else |path| > |top| && Resolve(fs, root, path[|top|..]) == Some(d)
    requires SpotAt(fs, opt, path, d, chain, outermost, ks).Some?
    ensures SpotOk(fs, opt, root, top, SpotAt(fs, opt, path, d, chain, outermost, ks).value,
                   ItemAt(fs, opt, path, d, chain, outermost, ks))
    decreases ks, 1
  {
    var prefix := if outermost then path else path + "/";
    assert LeadsTo(fs, root, prefix[|top|..], d) by {
      if !outermost { assert prefix[|top|..] == path[|top|..] + "/"; }
    }
    SpotFrom(fs, opt, root, top, prefix, d, chain, ks);
  }

  lemma {:induction false} SpotFrom(fs: FS, opt: Options, root: Ino, top: string, prefix: string, d: Ino,
                                    chain: seq<Ino>, ks: seq<nat>)
    requires WellFormed(fs) && d in fs.nodes && fs.nodes[d].Dir? && ks != []
    requires top <= prefix && LeadsTo(fs, root, prefix[|top|..], d) && SpotIn(fs, opt, prefix, d, chain, ks).Some?
    ensures SpotOk(fs, opt, root, top, SpotIn(fs, opt, prefix, d, chain, ks).value,
                   ItemIn(fs, opt, prefix, d, chain, ks))
    decreases ks, 0
  {
    var k := ks[0];
    var e := fs.nodes[d].entries[k];
    EntryJudgeable(fs, prefix, d, k);
    if |ks| == 1 {
      assert GoodDir(fs, d);
      FindAt(fs.nodes[d].entries, k);
    } else {
      SpotBelow(fs, opt, root, top, prefix, d, chain, k);
      var o := Expected(fs, opt.follow, prefix, d, e, chain);
      SpotInDir(fs, opt, root, top, prefix + e.name, o.ino, o.chain, false, ks[1..]);
    }
  }

  /** A directory that is entered is where its path leads. */
  lemma SpotBelow(fs: FS, opt: Options, root: Ino, top: string, prefix: string, d: Ino, chain: seq<Ino>, k: nat)
    requires WellFormed(fs) && d in fs.nodes && fs.nodes[d].Dir? && k < |fs.nodes[d].entries|
    requires top <= prefix && LeadsTo(fs, root, prefix[|top|..], d)
    requires |prefix + fs.nodes[d].entries[k].name| < PATH_MAX
    ensures Judgeable(fs, prefix, d, fs.nodes[d].entries[k])
    ensures var e := fs.nodes[d].entries[k];
      var o, path := Expected(fs, opt.follow, prefix, d, e, chain), prefix + e.name;
      o.IsDir? ==> o.ino in fs.nodes && top < path && Resolve(fs, root, path[|top|..]) == Some(o.ino)
  {
    var e := fs.nodes[d].entries[k];
    DescentDecreases(fs, opt.follow, prefix, d, k, chain);
    JudgedAsExpected(fs, opt.follow, prefix, d, e, chain);
    EntryResolves(fs, root, prefix[|top|..], d, k);
    DescentTarget(fs, opt.follow, prefix, d, e, chain);
    Tail(top, prefix, e.name);
  }

  lemma Tail(top: string, s: string, m: string)
    requires top <= s
    ensures top <= s + m && (s + m)[|top|..] == s[|top|..] + m
  {}

  /** Looked up again, the path shown for an entry names that entry exactly when it did not fill the buffer. */
  lemma SpotNamed(fs: FS, root: Ino, top: string, sp: Spot)
    requires sp.d in fs.nodes && GoodName(sp.e.name) && Child(fs, sp.d, sp.e.name) == Some(sp.e)
    requires top <= sp.prefix && LeadsTo(fs, root, sp.prefix[|top|..], sp.d) && |sp.Path()| <= PATH_MAX
    ensures top <= Cut(sp.Path()) && (Lookup(fs, root, Cut(sp.Path())[|top|..]) == Some(sp.e) <==> !sp.Full())
  {
    var p, name := sp.prefix[|top|..], sp.e.name;
    var m := if sp.Full() then name[..|name| - 1] else name;
    assert Cut(sp.Path()) == sp.prefix + m;
    Tail(top, sp.prefix, m);
    NameResolves(fs, root, p, sp.d, m);
    if sp.Full() && Child(fs, sp.d, m).Some? { FindNamed(fs.nodes[sp.d].entries, m); }
  }

  lemma OutcomeTruthful(fs: FS, follow: bool, prefix: string, d: Ino, e: Dirent, chain: seq<Ino>, x: Item)
    requires Judgeable(fs, prefix, d, e) && |prefix + e.name| < PATH_MAX
    requires x in ItemOf(Expected(fs, follow, prefix, d, e, chain), prefix + e.name)
    ensures x.path == prefix + e.name && KindAt(fs, follow, Some(e), x)
  {}

  /**
   At whatever place, links and cycles notwithstanding: the path of an item, looked up from the listed
   directory, names the entry that was read there if and only if it did not fill the path buffer, and
   then the entry is of the kind reported.
   */
  lemma PlacedTruthful(fs: FS, opt: Options, root: Ino, path: string, ks: seq<nat>)
    requires WellFormed(fs) && root in fs.nodes && Separated(path)
    requires SpotAt(fs, opt, path, root, [], true, ks).Some? && ItemAt(fs, opt, path, root, [], true, ks).Some?
    ensures var sp := SpotAt(fs, opt, path, root, [], true, ks).value;
      var x := ItemAt(fs, opt, path, root, [], true, ks).value;
      if |sp.Path()| > PATH_MAX then x == ErrorItem(Cut(sp.Path()))
      else
        && !x.DoneItem? && x.path == Cut(sp.Path()) && path <= x.path
        && (Lookup(fs, root, x.path[|path|..]) == Some(sp.e) <==> !sp.Full())
        && (!sp.Full() ==> KindAt(fs, opt.follow, Some(sp.e), x))
  {
    var sp, x := SpotAt(fs, opt, path, root, [], true, ks).value, ItemAt(fs, opt, path, root, [], true, ks);
    SpotInDir(fs, opt, root, path, path, root, [], true, ks);
    if |sp.Path()| <= PATH_MAX {
      SpotNamed(fs, root, path, sp);
      if !sp.Full() { OutcomeTruthful(fs, opt.follow, sp.prefix, sp.d, sp.e, sp.chain, x.value); }
    }
  }

  /** Every item but an error comes from an entry whose path fits. */
  lemma {:induction false} ItemSpotted(
    fs: FS, opt: Options, path: string, d: Ino, chain: seq<Ino>, outermost: bool, ks: seq<nat>)
    requires WellFormed(fs) && d in fs.nodes && ItemAt(fs, opt, path, d, chain, outermost, ks).Some?
    ensures var x := ItemAt(fs, opt, path, d, chain, outermost, ks).value;
      !x.DoneItem? && (!x.ErrorItem? ==> var sp := SpotAt(fs, opt, path, d, chain, outermost, ks);
                                         sp.Some? && |sp.value.Path()| <= PATH_MAX)
    decreases ks
  {
    if fs.nodes[d].Dir? && fs.nodes[d].openable && ks[0] < |fs.nodes[d].entries| {
      var prefix, k := if outermost then path else path + "/", ks[0];
      var e := fs.nodes[d].entries[k];
      DescentDecreases(fs, opt.follow, prefix, d, k, chain);
      JudgedAsExpected(fs, opt.follow, prefix, d, e, chain);
      var o := Judge(fs, opt.follow, prefix, d, e, chain);
      if |ks| > 1 && o.IsDir? && opt.recursive && |prefix + e.name| < PATH_MAX {
        ItemSpotted(fs, opt, prefix + e.name, o.ino, o.chain, false, ks[1..]);
      }
    }
  }

  /** Some entry whose path fills the buffer exactly is reported as `x`. */
  ghost predicate FromFull(fs: FS, opt: Options, path: string, root: Ino, x: Item)
    requires WellFormed(fs) && root in fs.nodes
  {
    exists ks :: ItemAt(fs, opt, path, root, [], true, ks) == Some(x) &&
                 var sp := SpotAt(fs, opt, path, root, [], true, ks); sp.Some? && sp.value.Full()
  }

  /** Whatever the links and cycles, an item names a file of the kind it reports unless its path was cut. */
  lemma ListingTruthful(fs: FS, opt: Options, root: Ino, path: string, x: Item)
    requires WellFormed(fs) && root in fs.nodes && Separated(path)
    requires x in ListDir(fs, opt, path, root, [], true)
    ensures Truthful(fs, opt.follow, root, path, x) || FromFull(fs, opt, path, root, x)
  {
    var ks := PlaceInDir(fs, opt, path, root, [], true, x);
    ItemSpotted(fs, opt, path, root, [], true, ks);
    if !x.ErrorItem? { PlacedTruthful(fs, opt, root, path, ks); }
  }

  // ----- What is listed, kind by kind -----

  /** The type of the entry is known, or lstat gives it. */
  ghost predicate Typed(follow: bool, e: Dirent) { Told(follow, e) || e.lstatOk }

  /** The end of a link that is followed: it is not broken and was not followed on the way. */
  ghost function FollowedTo(fs: FS, follow: bool, e: Dirent, chain: seq<Ino>): Option<Node>
    requires Exists(fs, Some(e))
  {
    var n := fs.nodes[e.ino];
    if follow && n.Link? && n.target.Some? && e.ino !in chain then Some(fs.nodes[n.target.value]) else None
  }

  /** Item `x` is listed, and is what stands at place `ks`. */
  ghost predicate ListedAt(fs: FS, opt: Options, root: Ino, path: string, ks: seq<nat>, x: Item)
    requires WellFormed(fs) && root in fs.nodes
  {
    ItemAt(fs, opt, path, root, [], true, ks) == Some(x) && x in ListDir(fs, opt, path, root, [], true)
  }

  /**
   No entry that is read and whose path is shorter than the buffer is left out or taken for something
   else. A regular file is listed as a file and a directory as a directory, except "." and "..". A link
   is listed as a link unless it is followed, and then as what it leads to. An error stands for an entry
   whose type only lstat could tell, and lstat failed.
   */
  lemma ListedByKind(fs: FS, opt: Options, root: Ino, path: string, ks: seq<nat>)
    requires WellFormed(fs) && root in fs.nodes && Separated(path)
    requires SpotAt(fs, opt, path, root, [], true, ks).Some?
    requires |SpotAt(fs, opt, path, root, [], true, ks).value.Path()| < PATH_MAX
    ensures var sp := SpotAt(fs, opt, path, root, [], true, ks).value;
      && Exists(fs, Some(sp.e))
      && var n, end, p := fs.nodes[sp.e.ino], FollowedTo(fs, opt.follow, sp.e, sp.chain), sp.Path();
         if !Typed(opt.follow, sp.e) then ListedAt(fs, opt, root, path, ks, ErrorItem(p))
         else
           && (n.Reg? ==> ListedAt(fs, opt, root, path, ks, FileItem(p)))
           && (n.Dir? && !IsDot(sp.e.name) ==> ListedAt(fs, opt, root, path, ks, DirItem(p)))
           && (n.Link? && end.None? ==> ListedAt(fs, opt, root, path, ks, LinkItem(p)))
           && (end.Some? && end.value.Reg? ==> ListedAt(fs, opt, root, path, ks, FileItem(p)))
           && (end.Some? && end.value.Dir? ==> ListedAt(fs, opt, root, path, ks, DirItem(p)))
  {
    SpotInDir(fs, opt, root, path, path, root, [], true, ks);
    if ItemAt(fs, opt, path, root, [], true, ks).Some? { DirHasPlace(fs, opt, path, root, [], true, ks); }
  }

  /** What ends a directory: a path longer than the buffer, a special file, or a link followed to one. */
  lemma EndsByKind(fs: FS, follow: bool, prefix: string, d: Ino, chain: seq<Ino>, j: nat)
    requires WellFormed(fs) && d in fs.nodes && fs.nodes[d].Dir? && j < |fs.nodes[d].entries|
    ensures var e := fs.nodes[d].entries[j];
      && Exists(fs, Some(e))
      && (|prefix + e.name| > PATH_MAX ==> StopsAt(fs, follow, prefix, d, chain, j))
      && (|prefix + e.name| < PATH_MAX ==>
            var end := FollowedTo(fs, follow, e, chain);
            StopsAt(fs, follow, prefix, d, chain, j) <==>
              Typed(follow, e) && (fs.nodes[e.ino].Special? || (end.Some? && end.value.Special?)))
  {
    EntryJudgeable(fs, prefix, d, j);
  }

  // ----- Directories that cannot be left -----

  /** At `ks` a directory is entered whose path fills the buffer, and which can be opened under what is left of it. */
  ghost predicate Trap(
    fs: FS, opt: Options, path: string, d: Ino, chain: seq<Ino>, outermost: bool, ks: seq<nat>)
    requires WellFormed(fs) && d in fs.nodes
  {
    && opt.recursive && SpotAt(fs, opt, path, d, chain, outermost, ks).Some?
    && TrapAt(fs, opt, SpotAt(fs, opt, path, d, chain, outermost, ks).value)
  }

  ghost predicate TrapAt(fs: FS, opt: Options, sp: Spot) {
    && sp.Full() && Judgeable(fs, sp.prefix, sp.d, sp.e)
    && Expected(fs, opt.follow, sp.prefix, sp.d, sp.e, sp.chain).IsDir? && CutOpens(fs, sp.d, sp.e)
  }

  lemma {:induction false} TrapInDir(
    fs: FS, opt: Options, path: string, d: Ino, chain: seq<Ino>, outermost: bool, ks: seq<nat>)
    requires WellFormed(fs) && d in fs.nodes && Trap(fs, opt, path, d, chain, outermost, ks)
    ensures !RoomDir(fs, opt, path, d, chain, outermost)
    decreases ks, 1, 0
  {
    var prefix := if outermost then path else path + "/";
    assert SpotIn(fs, opt, prefix, d, chain, ks).Some?;
    TrapFrom(fs, opt, prefix, d, 0, chain, ks);
  }

  lemma {:induction false} TrapFrom(
    fs: FS, opt: Options, prefix: string, d: Ino, i: nat, chain: seq<Ino>, ks: seq<nat>)
    requires WellFormed(fs) && d in fs.nodes && fs.nodes[d].Dir? && opt.recursive
    requires ks != [] && i <= ks[0] < |fs.nodes[d].entries|
    requires SpotIn(fs, opt, prefix, d, chain, ks).Some? && TrapAt(fs, opt, SpotIn(fs, opt, prefix, d, chain, ks).value)
    ensures !RoomFrom(fs, opt, prefix, d, i, chain)
    decreases ks, 0, ks[0] - i
  {
    var e := fs.nodes[d].entries[i];
    DescentDecreases(fs, opt.follow, prefix, d, i, chain);
    JudgedAsExpected(fs, opt.follow, prefix, d, e, chain);
    var o := Judge(fs, opt.follow, prefix, d, e, chain);
    if i < ks[0] {
      assert !StopsAt(fs, opt.follow, prefix, d, chain, i);
      TrapFrom(fs, opt, prefix, d, i + 1, chain, ks);
    } else if |ks| > 1 {
      TrapInDir(fs, opt, prefix + e.name, o.ino, o.chain, false, ks[1..]);
    }
  }

  lemma {:induction false} NoRoomInDir(
    fs: FS, opt: Options, path: string, d: Ino, chain: seq<Ino>, outermost: bool) returns (ks: seq<nat>)
    requires WellFormed(fs) && d in fs.nodes && !RoomDir(fs, opt, path, d, chain, outermost)
    ensures Trap(fs, opt, path, d, chain, outermost, ks)
    decreases |Followable(fs, chain)|, Height(fs, d), 1, 0
  {
    ks := NoRoomFrom(fs, opt, if outermost then path else path + "/", d, 0, chain);
  }

  lemma {:induction false} NoRoomFrom(
    fs: FS, opt: Options, prefix: string, d: Ino, i: nat, chain: seq<Ino>) returns (ks: seq<nat>)
    requires WellFormed(fs) && d in fs.nodes && fs.nodes[d].Dir? && i <= |fs.nodes[d].entries|
    requires !RoomFrom(fs, opt, prefix, d, i, chain) && !StopsBefore(fs, opt.follow, prefix, d, chain, i)
    ensures opt.recursive && ks != [] && SpotIn(fs, opt, prefix, d, chain, ks).Some?
    ensures TrapAt(fs, opt, SpotIn(fs, opt, prefix, d, chain, ks).value)
    decreases |Followable(fs, chain)|, Height(fs, d), 0, |fs.nodes[d].entries| - i
  {
    var e := fs.nodes[d].entries[i];
    DescentDecreases(fs, opt.follow, prefix, d, i, chain);
    JudgedAsExpected(fs, opt.follow, prefix, d, e, chain);
    var o := Judge(fs, opt.follow, prefix, d, e, chain);
    assert !StopsAt(fs, opt.follow, prefix, d, chain, i);
    if !RoomFrom(fs, opt, prefix, d, i + 1, chain) {
      ks := NoRoomFrom(fs, opt, prefix, d, i + 1, chain);
    } else if |prefix + e.name| == PATH_MAX {
      ks := [i];
    } else {
      var rest := NoRoomInDir(fs, opt, prefix + e.name, o.ino, o.chain, false);
      ks := [i] + rest;
      assert ks[1..] == rest;
    }
  }

  /** A listing is possible exactly when there is no such place; without recursion it always is. */
  lemma RoomIff(fs: FS, opt: Options, root: Ino, path: string)
    requires WellFormed(fs) && root in fs.nodes
    ensures RoomDir(fs, opt, path, root, [], true) <==> forall ks :: !Trap(fs, opt, path, root, [], true, ks)
    ensures !opt.recursive ==> RoomDir(fs, opt, path, root, [], true)
  {
    if !RoomDir(fs, opt, path, root, [], true) {
      var ks := NoRoomInDir(fs, opt, path, root, [], true);
    }
    forall ks | Trap(fs, opt, path, root, [], true, ks) ensures !RoomDir(fs, opt, path, root, [], true) {
      TrapInDir(fs, opt, path, root, [], true, ks);
    }
  }

  // ----- Examples -----

  /** A directory with two directories, "ab" and "a". */
  const TWO := FS(map[0 := Dir(true, [Dirent("ab", 1, DtDir, true), Dirent("a", 2, DtDir, true)], false),
                      1 := Dir(true, [], false), 2 := Dir(true, [], false)], map[0 := 1])

  lemma TwoWellFormed()
    ensures WellFormed(TWO)
  {
    forall d ensures GoodDir(TWO, d) {
      assert "ab"[1] == 'b' && |"a"| == 1;
    }
  }

  lemma TwoNames()
    ensures CutOpens(TWO, 0, TWO.nodes[0].entries[0])
  {
    var es := TWO.nodes[0].entries;
    assert es[0].name[..1] == "a" && |es[0].name| != |"a"|;
    FindAt(es, 1);
  }

  /** Under a start path with room for one character more, "ab" is reported as "a". */
  lemma CutExample(path: string, recursive: bool)
    requires Separated(path) && |path| == PATH_MAX - 2
    ensures WellFormed(TWO)
    ensures var opt := Options(recursive, false);
      && SpotAt(TWO, opt, path, 0, [], true, [0]) == Some(Spot(path, 0, Dirent("ab", 1, DtDir, true), []))
      && ItemAt(TWO, opt, path, 0, [], true, [0]) == Some(DirItem(path + "a"))
  {
    TwoWellFormed();
    DescentDecreases(TWO, false, path, 0, 0, []);
    assert Cut(path + "ab") == path + "a";
  }

  /** And entered it cannot be left. */
  lemma UnleavableExample(path: string)
    requires Separated(path) && |path| == PATH_MAX - 2
    ensures WellFormed(TWO) && !RoomDir(TWO, Options(true, false), path, 0, [], true)
  {
    TwoWellFormed();
    TwoNames();
    DescentDecreases(TWO, false, path, 0, 0, []);
    assert !RoomFrom(TWO, Options(true, false), path, 0, 0, []);
  }
}
