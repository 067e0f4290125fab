/** A file system as a directory walk sees it, and the listing that a recursive walk would produce. */
module FileSystem {
  import opened Basics
  import opened PathBuffers
  import opened Ring

  /** Stands for the device and inode numbers of a file. */
  type Ino = nat

  /** The type that readdir reports for an entry. */
  datatype DType = DtDir | DtReg | DtLnk | DtUnknown | DtOther

  datatype Dirent = Dirent(name: string, ino: Ino, dtype: DType, lstatOk: bool)

  /** A link carries where stat would end up, nothing when it is broken. */
  datatype Node =
    | Dir(openable: bool, entries: seq<Dirent>, readFails: bool)
    | Reg
    | Link(target: Option<Ino>)
    | Special

  /** `height` ranks the directories: apart from "." and ".." and links they form a tree. */
  datatype FS = FS(nodes: map<Ino, Node>, height: map<Ino, nat>)

  predicate IsDot(name: string) { name == "." || name == ".." }

  predicate GoodName(name: string) {
    name != "" && '/' !in name && NoNul(name)
  }

  predicate Consistent(t: DType, n: Node) {
    match t
    case DtUnknown => true
    case DtDir => n.Dir?
    case DtReg => n.Reg?
    case DtLnk => n.Link?
    case DtOther => n.Special?
  }

  ghost predicate GoodEntry(fs: FS, dir: Ino, e: Dirent) {
    && e.ino in fs.nodes && GoodName(e.name) && Consistent(e.dtype, fs.nodes[e.ino])
    && (IsDot(e.name) ==> fs.nodes[e.ino].Dir?)
    && (!IsDot(e.name) && fs.nodes[e.ino].Dir? ==> Height(fs, e.ino) < Height(fs, dir))
    && (fs.nodes[e.ino].Link? && fs.nodes[e.ino].target.Some? ==>
          fs.nodes[e.ino].target.value in fs.nodes && !fs.nodes[fs.nodes[e.ino].target.value].Link?)
  }

  function Height(fs: FS, d: Ino): nat {
    if d in fs.height then fs.height[d] else 0
  }

  ghost predicate GoodDir(fs: FS, d: Ino) {
    d in fs.nodes && fs.nodes[d].Dir? ==>
      var es := fs.nodes[d].entries;
      && (forall i :: 0 <= i < |es| ==> GoodEntry(fs, d, es[i]))
      && (forall i, j :: 0 <= i < j < |es| ==> es[i].name != es[j].name)
  }

  ghost predicate WellFormed(fs: FS) {
    forall d :: GoodDir(fs, d)
  }

  // ----- One entry -----

  datatype Outcome = IsFile | IsLink | IsDir(ino: Ino, chain: seq<Ino>) | IsError | Skip | Stop

  /**
   What lstat finds when asked about entry `e` of directory `d`. A path that fills the buffer exactly
   has lost its last character there: it names another entry, or the directory itself.
   */
  function Asked(fs: FS, prefix: string, d: Ino, e: Dirent): Option<Dirent> {
    if |prefix + e.name| < PATH_MAX then Some(e)
    else if |e.name| <= 1 then Some(Dirent(".", d, DtDir, true))
    else Child(fs, d, e.name[..|e.name| - 1])
  }

  /** A file that exists, and so does the end of its link. */
  ghost predicate Exists(fs: FS, a: Option<Dirent>) {
    a.Some? ==>
      && a.value.ino in fs.nodes
      && var n := fs.nodes[a.value.ino];
         n.Link? && n.target.Some? ==> n.target.value in fs.nodes && !fs.nodes[n.target.value].Link?
  }

  /**
   What DirectoryListingEntry::Next makes of an entry it has read, `asked` being what lstat says.
   `chain` holds the links followed to get here, innermost first. An entry of any other type ends the
   listing of its directory.
   */
  function Classify(fs: FS, follow: bool, e: Dirent, asked: Option<Dirent>, chain: seq<Ino>): Outcome
    requires Exists(fs, asked)
  {
    match e.dtype
    case DtDir => if IsDot(e.name) then Skip else IsDir(e.ino, chain)
    case DtReg => IsFile
    case DtOther => Stop
    case _ =>
      if e.dtype.DtLnk? && !follow then IsLink
      else if asked.None? || !asked.value.lstatOk then IsError
      else
        var l, n := asked.value.ino, fs.nodes[asked.value.ino];
        if follow && n.Link? then
          if l in chain then IsLink
          else if n.target.None? then IsLink
          else if fs.nodes[n.target.value].Dir? then
            (if IsDot(e.name) then Skip else IsDir(n.target.value, [l] + chain))
          else ByKind(fs.nodes[n.target.value])
        else if n.Dir? then (if IsDot(e.name) then Skip else IsDir(l, chain))
        else ByKind(n)
  }

  function ByKind(n: Node): Outcome {
    if n.Reg? then IsFile else if n.Link? then IsLink else Stop
  }

  ghost function Links(fs: FS): set<Ino> {
    set l | l in fs.nodes && fs.nodes[l].Link?
  }

  /** The links that can still be followed. */
  ghost function Followable(fs: FS, chain: seq<Ino>): set<Ino> {
    Links(fs) - set l | l in chain
  }

  /** The entry and what lstat says of it are as they should be. */
  ghost predicate Judgeable(fs: FS, prefix: string, d: Ino, e: Dirent) {
    && GoodEntry(fs, d, e)
    && var a := Asked(fs, prefix, d, e);
       Exists(fs, a) && (IsDot(e.name) && a.Some? ==> fs.nodes[a.value.ino].Dir?)
  }

  lemma EntryJudgeable(fs: FS, prefix: string, d: Ino, i: nat)
    requires WellFormed(fs) && d in fs.nodes && fs.nodes[d].Dir? && i < |fs.nodes[d].entries|
    ensures Judgeable(fs, prefix, d, fs.nodes[d].entries[i])
  {
    assert GoodDir(fs, d);
    var es, e := fs.nodes[d].entries, fs.nodes[d].entries[i];
    if |e.name| > 1 { FindNamed(es, e.name[..|e.name| - 1]); }
  }

  /** What becomes of an entry whose path is `prefix` and its name. */
  function Judge(fs: FS, follow: bool, prefix: string, d: Ino, e: Dirent, chain: seq<Ino>): Outcome
    requires Judgeable(fs, prefix, d, e)
  {
    Classify(fs, follow, e, Asked(fs, prefix, d, e), chain)
  }

  /** Descending either uses up a link or goes down the tree. */
  lemma DescentDecreases(fs: FS, follow: bool, prefix: string, d: Ino, i: nat, chain: seq<Ino>)
    requires WellFormed(fs) && d in fs.nodes && fs.nodes[d].Dir? && i < |fs.nodes[d].entries|
    ensures Judgeable(fs, prefix, d, fs.nodes[d].entries[i])
    ensures var o := Judge(fs, follow, prefix, d, fs.nodes[d].entries[i], chain);
      o.IsDir? ==>
        && o.ino in fs.nodes && fs.nodes[o.ino].Dir? && (Distinct(chain) ==> Distinct(o.chain))
        && (|prefix + fs.nodes[d].entries[i].name| < PATH_MAX ==>
              if o.chain == chain then Height(fs, o.ino) < Height(fs, d)
              else |Followable(fs, o.chain)| < |Followable(fs, chain)|)
  {
    EntryJudgeable(fs, prefix, d, i);
    var e := fs.nodes[d].entries[i];
    var o := Judge(fs, follow, prefix, d, e, chain);
    if o.IsDir? && o.chain != chain {
      var l := Asked(fs, prefix, d, e).value.ino;
      assert l in Followable(fs, chain);
      assert Followable(fs, o.chain) == Followable(fs, chain) - {l};
      DistinctCons(l, chain);
    }
  }

  /** The directory to descend into is where the entry leads, links followed. */
  lemma DescentTarget(fs: FS, follow: bool, prefix: string, d: Ino, e: Dirent, chain: seq<Ino>)
    requires Judgeable(fs, prefix, d, e) && |prefix + e.name| < PATH_MAX
    ensures var o := Judge(fs, follow, prefix, d, e, chain);
      o.IsDir? ==> o.ino in fs.nodes && Target(fs, Some(e)) == Some(o.ino)
  {}

  // ----- The recursive listing -----

  datatype Item =
    | FileItem(path: string)
    | DirItem(path: string)
    | LinkItem(path: string)
    | ErrorItem(path: string)
    | DoneItem

  datatype Options = Options(recursive: bool, follow: bool)

  /** The listing of directory `d`, opened as `path`; every level but the outermost adds a separator. */
  function ListDir(fs: FS, opt: Options, path: string, d: Ino, chain: seq<Ino>, outermost: bool): seq<Item>
    requires WellFormed(fs) && d in fs.nodes
    decreases |Followable(fs, chain)|, Height(fs, d), 1, 0
  {
    if !fs.nodes[d].Dir? || !fs.nodes[d].openable then [ErrorItem(Cut(path))]
    else ListFrom(fs, opt, if outermost then path else path + "/", d, 0, chain)
  }

  /**
   The listing of the entries of `d` from position `i` on, each path being `prefix` and a name. A path
   too long for the buffer is reported as an error, cut to what the buffer takes, and ends the listing
   of its directory. One that just fills it is reported without its last character, and a directory of
   that name cannot be entered.
   */
  function ListFrom(fs: FS, opt: Options, prefix: string, d: Ino, i: nat, chain: seq<Ino>): seq<Item>
    requires WellFormed(fs) && d in fs.nodes && fs.nodes[d].Dir? && i <= |fs.nodes[d].entries|
    decreases |Followable(fs, chain)|, Height(fs, d), 0, |fs.nodes[d].entries| - i
  {
    if i == |fs.nodes[d].entries| then (if fs.nodes[d].readFails then [ErrorItem(Cut(prefix))] else [])
    else
      var e := fs.nodes[d].entries[i];
      DescentDecreases(fs, opt.follow, prefix, d, i, chain);
      var path := prefix + e.name;
      if |path| > PATH_MAX then [ErrorItem(Cut(path))]
      else match Judge(fs, opt.follow, prefix, d, e, chain)
      case Skip => ListFrom(fs, opt, prefix, d, i + 1, chain)
      case Stop => []
      case IsFile => [FileItem(Cut(path))] + ListFrom(fs, opt, prefix, d, i + 1, chain)
      case IsLink => [LinkItem(Cut(path))] + ListFrom(fs, opt, prefix, d, i + 1, chain)
      case IsError => [ErrorItem(Cut(path))] + ListFrom(fs, opt, prefix, d, i + 1, chain)
      case IsDir(sub, chain') =>
        [DirItem(Cut(path))]
        + (if !opt.recursive then []
           else if |path| == PATH_MAX then [ErrorItem(Cut(path))]
           else ListDir(fs, opt, path, sub, chain', false))
        + ListFrom(fs, opt, prefix, d, i + 1, chain)
  }

  /** The marker for the end is never part of a listing. */
  lemma {:induction false} DirNotDone(
    fs: FS, opt: Options, path: string, d: Ino, chain: seq<Ino>, outermost: bool)
    requires WellFormed(fs) && d in fs.nodes
    ensures DoneItem !in ListDir(fs, opt, path, d, chain, outermost)
    decreases |Followable(fs, chain)|, Height(fs, d), 1, 0
  {
    if fs.nodes[d].Dir? && fs.nodes[d].openable {
      FromNotDone(fs, opt, if outermost then path else path + "/", d, 0, chain);
    }
  }

  lemma {:induction false} FromNotDone(fs: FS, opt: Options, prefix: string, d: Ino, i: nat, chain: seq<Ino>)
    requires WellFormed(fs) && d in fs.nodes && fs.nodes[d].Dir? && i <= |fs.nodes[d].entries|
    ensures DoneItem !in ListFrom(fs, opt, prefix, d, i, chain)
    decreases |Followable(fs, chain)|, Height(fs, d), 0, |fs.nodes[d].entries| - i
  {
    if i < |fs.nodes[d].entries| {
      var e := fs.nodes[d].entries[i];
      DescentDecreases(fs, opt.follow, prefix, d, i, chain);
      FromNotDone(fs, opt, prefix, d, i + 1, chain);
      var o := Judge(fs, opt.follow, prefix, d, e, chain);
      if o.IsDir? && |prefix + e.name| < PATH_MAX { DirNotDone(fs, opt, prefix + e.name, o.ino, o.chain, false); }
    }
  }

  // ----- Directories that cannot be left -----

  /** The path of entry `e` of `d`, without its last character, names a directory that can be opened. */
  predicate CutOpens(fs: FS, d: Ino, e: Dirent) {
    var t := if |e.name| <= 1 then Some(d) else Target(fs, Child(fs, d, e.name[..|e.name| - 1]));
    t.Some? && t.value in fs.nodes && fs.nodes[t.value].Dir? && fs.nodes[t.value].openable
  }

  /**
   The listing of `d` enters no directory under a path that has lost its last character and yet can be
   opened: there is no room for the separator then, and the entry goes on with a length never set.
   */
  ghost predicate RoomDir(fs: FS, opt: Options, path: string, d: Ino, chain: seq<Ino>, outermost: bool)
    requires WellFormed(fs) && d in fs.nodes
    decreases |Followable(fs, chain)|, Height(fs, d), 1, 0
  {
    fs.nodes[d].Dir? && fs.nodes[d].openable ==>
      RoomFrom(fs, opt, if outermost then path else path + "/", d, 0, chain)
  }

  ghost predicate RoomFrom(fs: FS, opt: Options, prefix: string, d: Ino, i: nat, chain: seq<Ino>)
    requires WellFormed(fs) && d in fs.nodes && fs.nodes[d].Dir? && i <= |fs.nodes[d].entries|
    decreases |Followable(fs, chain)|, Height(fs, d), 0, |fs.nodes[d].entries| - i
  {
    i < |fs.nodes[d].entries| ==>
      var e := fs.nodes[d].entries[i];
      DescentDecreases(fs, opt.follow, prefix, d, i, chain);
      var o, path := Judge(fs, opt.follow, prefix, d, e, chain), prefix + e.name;
      |path| <= PATH_MAX && !o.Stop? ==>
        && RoomFrom(fs, opt, prefix, d, i + 1, chain)
        && (o.IsDir? && opt.recursive ==>
              if |path| == PATH_MAX then !CutOpens(fs, d, e) else RoomDir(fs, opt, path, o.ino, o.chain, false))
  }

  // ----- Paths -----

  /** The entry called `name`. */
  function Child(fs: FS, d: Ino, name: string): Option<Dirent>
  {
    if d in fs.nodes && fs.nodes[d].Dir? then Find(fs.nodes[d].entries, name) else None
  }

  function Find(es: seq<Dirent>, name: string): Option<Dirent> {
    if es == [] then None else if es[0].name == name then Some(es[0]) else Find(es[1..], name)
  }

  /** The file that a final or inner path component leads to, links followed. */
  function Target(fs: FS, e: Option<Dirent>): Option<Ino> {
    if e.None? || e.value.ino !in fs.nodes then None
    else if fs.nodes[e.value.ino].Link? then fs.nodes[e.value.ino].target
    else Some(e.value.ino)
  }

  lemma {:induction false} FindNamed(es: seq<Dirent>, name: string)
    ensures var r := Find(es, name); r.Some? ==> r.value in es && r.value.name == name
  {
    if es != [] && es[0].name != name { FindNamed(es[1..], name); }
  }

  function Slash(s: string): (k: nat)
    ensures k <= |s| && (k < |s| ==> s[k] == '/') && '/' !in s[..k]
  {
    if s == "" || s[0] == '/' then 0 else 1 + Slash(s[1..])
  }

  /** The entry that a path relative to directory `d` names, the last component not followed. */
  function Lookup(fs: FS, d: Ino, s: string): Option<Dirent>
    decreases |s|
  {
    var k := Slash(s);
    if k == |s| then Child(fs, d, s)
    else
      var t := Target(fs, Child(fs, d, s[..k]));
      if t.None? then None else Lookup(fs, t.value, s[k + 1..])
  }

  /** The directory that `rel` leads to from `root`; the empty path is `root` itself. */
  function Resolve(fs: FS, root: Ino, rel: string): Option<Ino> {
    if rel == "" then Some(root) else Target(fs, Lookup(fs, root, rel))
  }

  lemma {:induction false} SlashIn(s: string, t: string)
    ensures Slash(s) < |s| ==> Slash(s + t) == Slash(s)
    ensures Slash(s) == |s| ==> Slash(s + "/" + t) == |s|
    ensures '/' !in s ==> Slash(s) == |s|
  {
    if s != "" && s[0] != '/' {
      SlashIn(s[1..], t);
      assert (s + t)[1..] == s[1..] + t && (s + "/" + t)[1..] == s[1..] + "/" + t;
    }
  }

  /** A name appended to a path is looked up in the directory that the path leads to. */
  lemma {:induction false} LookupAppend(fs: FS, d: Ino, s: string, name: string)
    requires '/' !in name && Target(fs, Lookup(fs, d, s)).Some?
    ensures Lookup(fs, d, s + "/" + name) == Child(fs, Target(fs, Lookup(fs, d, s)).value, name)
    decreases |s|
  {
    var k := Slash(s);
    var path := s + "/" + name;
    SlashIn(s, name);
    SlashIn(s, "/" + name);
    SlashIn(name, "");
    if k == |s| {
      assert path[..k] == s && path[k + 1..] == name;
    } else {
      assert path == s + ("/" + name);
      assert path[..k] == s[..k] && path[k + 1..] == s[k + 1..] + "/" + name;
      LookupAppend(fs, Target(fs, Child(fs, d, s[..k])).value, s[k + 1..], name);
    }
  }

  lemma {:induction false} FindAt(es: seq<Dirent>, i: nat)
    requires i < |es| && forall j :: 0 <= j < i ==> es[j].name != es[i].name
    ensures Find(es, es[i].name) == Some(es[i])
  {
    if i > 0 { FindAt(es[1..], i - 1); }
  }

  /** Prefix of the entries of the directory at `rel`: nothing at the root, else the path and a separator. */
  ghost predicate LeadsTo(fs: FS, root: Ino, prefix: string, d: Ino) {
    (prefix == "" && d == root) ||
    (|prefix| > 1 && prefix[|prefix| - 1] == '/' && Resolve(fs, root, prefix[..|prefix| - 1]) == Some(d))
  }

  /** A name in the directory behind `prefix` is looked up there. */
  lemma NameResolves(fs: FS, root: Ino, prefix: string, d: Ino, name: string)
    requires LeadsTo(fs, root, prefix, d) && '/' !in name
    ensures Lookup(fs, root, prefix + name) == Child(fs, d, name)
  {
    if prefix == "" {
      SlashIn(name, "");
      assert prefix + name == name;
    } else {
      var s := prefix[..|prefix| - 1];
      assert prefix == s + "/";
      LookupAppend(fs, root, s, name);
      assert prefix + name == s + "/" + name;
    }
  }

  /** Reading entry `i` of the directory behind `prefix`, its path names that entry again. */
  lemma EntryResolves(fs: FS, root: Ino, prefix: string, d: Ino, i: nat)
    requires WellFormed(fs) && d in fs.nodes && fs.nodes[d].Dir? && i < |fs.nodes[d].entries|
    requires LeadsTo(fs, root, prefix, d)
    ensures Lookup(fs, root, prefix + fs.nodes[d].entries[i].name) == Some(fs.nodes[d].entries[i])
  {
    assert GoodDir(fs, d);
    FindAt(fs.nodes[d].entries, i);
    NameResolves(fs, root, prefix, d, fs.nodes[d].entries[i].name);
  }

  // ----- The start path -----

  /** The callers of a listing end the start path with a separator, an empty one becoming "./". */
  predicate Separated(path: string) { path != "" && path[|path| - 1] == '/' }

  /** FileSystemEntity._ensureTrailingPathSeparators. */
  method EnsureTrailingPathSeparators(name: string) returns (path: string)
    ensures Separated(path) && path == if Separated(name) then name else if name == "" then "./" else name + "/"
  {
    path := name;
    if path == "" { path := "."; }
    while !Separated(path)
      invariant path == (if name == "" then "." else name) || (Separated(path) && !Separated(name))
      invariant Separated(path) ==> path == if Separated(name) then name else if name == "" then "./" else name + "/"
      decreases !Separated(path)
    {
      path := path + "/";
    }
  }

  /** The entry that a path leads to has the last component for its name. */
  lemma {:induction false} LookupNamed(fs: FS, d: Ino, s: string, e: Dirent)
    requires Lookup(fs, d, s) == Some(e)
    ensures var k := |s| - |e.name|; k >= 0 && s[k..] == e.name && '/' !in e.name && (k > 0 ==> s[k - 1] == '/')
    decreases |s|
  {
    var k := Slash(s);
    if k == |s| {
      FindNamed(fs.nodes[d].entries, s);
    } else {
      LookupNamed(fs, Target(fs, Child(fs, d, s[..k])).value, s[k + 1..], e);
    }
  }

  /**
   Looked up from any directory `cwd`, the path that a listing builds for entry `e` of the directory
   behind `s` names that entry if a separator follows `s`, and never without one.
   */
  lemma SeparatorNeeded(fs: FS, cwd: Ino, s: string, e: Dirent)
    requires WellFormed(fs) && cwd in fs.nodes && GoodName(e.name)
    requires Target(fs, Lookup(fs, cwd, s)).Some? && Child(fs, Target(fs, Lookup(fs, cwd, s)).value, e.name) == Some(e)
    ensures Lookup(fs, cwd, s + "/" + e.name) == Some(e)
    ensures Lookup(fs, cwd, s + e.name) != Some(e)
  {
    LookupAppend(fs, cwd, s, e.name);
    var x := Lookup(fs, cwd, s).value;
    LookupNamed(fs, cwd, s, x);
    LookupGood(fs, cwd, s, x);
    assert s[|s| - 1] == x.name[|x.name| - 1] != '/';
    if Lookup(fs, cwd, s + e.name) == Some(e) { LookupNamed(fs, cwd, s + e.name, e); }
  }

  lemma {:induction false} LookupGood(fs: FS, d: Ino, s: string, e: Dirent)
    requires WellFormed(fs) && Lookup(fs, d, s) == Some(e)
    ensures GoodName(e.name)
    decreases |s|
  {
    var k := Slash(s);
    if k == |s| {
      assert GoodDir(fs, d);
      FindNamed(fs.nodes[d].entries, s);
    } else {
      LookupGood(fs, Target(fs, Child(fs, d, s[..k])).value, s[k + 1..], e);
    }
  }
}
