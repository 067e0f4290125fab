/**
 Recursive deletion: what it removes when it succeeds, and what it leaves alone when it fails,
 whatever links lie in the tree or on the way to it and wherever the system refuses.
 */
module DeleteTree {
  import opened Basics
  import opened PathBuffers
  import opened FileSystem

  // ----- A tree of named files -----

  /** Names from the directory in which paths are resolved. */
  type Path = seq<string>

  /** A symlink carries the place that its chain of links leads to. */
  datatype Kind = Folder | File | Symlink(target: Path) | Other

  type Tree = map<Path, Kind>

  ghost predicate Sound(d: Tree) {
    && [] in d && d[[]].Folder?
    && forall p :: SoundAt(d, p)
  }

  ghost predicate SoundAt(d: Tree, p: Path) {
    p in d && p != [] ==>
      var up, name := p[..|p| - 1], p[|p| - 1];
      up in d && d[up].Folder? && GoodName(name) && !IsDot(name)
  }

  lemma {:induction false} Ancestor(d: Tree, q: Path, n: nat)
    requires Sound(d) && q in d && n <= |q|
    ensures q[..n] in d && (n < |q| ==> d[q[..n]].Folder?)
    decreases |q| - n
  {
    if n == |q| {
      assert q[..n] == q;
    } else {
      Ancestor(d, q, n + 1);
      assert SoundAt(d, q[..n + 1]);
      assert q[..n + 1][..n] == q[..n];
    }
  }

  // ----- Path names -----

  function LastSlash(s: string): (k: int)
    ensures -1 <= k < |s|
  {
    if s == "" then -1 else if s[|s| - 1] == '/' then |s| - 1 else LastSlash(s[..|s| - 1])
  }

  lemma {:induction false} LastSlashIs(s: string)
    ensures var k := LastSlash(s); (k >= 0 ==> s[k] == '/') && forall i :: k < i < |s| ==> s[i] != '/'
  {
    if s != "" && s[|s| - 1] != '/' {
      var t := s[..|s| - 1];
      LastSlashIs(t);
      assert forall i :: 0 <= i < |t| ==> s[i] == t[i];
    }
  }

  lemma LastSlashSplits(s: string)
    ensures var k := LastSlash(s); (k >= 0 ==> s[k] == '/') && '/' !in s[k + 1..]
  {
    LastSlashIs(s);
  }

  function One(name: string): Path { if name == "" then [] else [name] }

  /** The components of a path name. */
  function Parse(s: string): Path
    decreases |s|
  {
    var k := LastSlash(s);
    if k < 0 then One(s) else Parse(s[..k]) + One(s[k + 1..])
  }

  predicate EndsSlash(s: string) { s != "" && s[|s| - 1] == '/' }

  /** Where `name` in directory `up` leads. */
  function Step(d: Tree, up: Path, name: string, follow: bool): Option<Path> {
    if up !in d || !d[up].Folder? then None
    else if name == "." then Some(up)
    else if name == ".." then (if up == [] then Some([]) else Some(up[..|up| - 1]))
    else if up + [name] !in d then None
    else if follow && d[up + [name]].Symlink?
    then (if d[up + [name]].target in d then Some(d[up + [name]].target) else None)
    else Some(up + [name])
  }

  /** Where a list of components leads; all links are followed, the last one only if `follow`. */
  function Walk(d: Tree, cs: Path, follow: bool): Option<Path>
    decreases |cs|
  {
    if cs == [] then Some([])
    else
      var up := Walk(d, cs[..|cs| - 1], true);
      if up.None? then None else Step(d, up.value, cs[|cs| - 1], follow)
  }

  /** What lstat and unlink take a path name for. A name that ends in a slash is that of a directory. */
  function Named(d: Tree, s: string): Option<Path> {
    if s == "" then None
    else if EndsSlash(s) then
      var r := Walk(d, Parse(s), true);
      if r.Some? && r.value in d && d[r.value].Folder? then r else None
    else Walk(d, Parse(s), false)
  }

  /** A name can be appended: nothing comes before it, or a slash. */
  predicate TakesName(s: string) { s == "" || EndsSlash(s) }

  lemma ParseName(name: string)
    requires '/' !in name
    ensures Parse(name) == One(name)
  {
    LastSlashSplits(name);
  }

  /** A name in a directory whose path ends in a slash. */
  lemma ParseEntry(s: string, name: string)
    requires TakesName(s) && '/' !in name
    ensures Parse(s + name) == Parse(s) + One(name)
  {
    var t := s + name;
    if s == "" {
      assert t == name;
      ParseName(name);
      ParseName("");
    } else {
      var n := |s| - 1;
      LastSlashEntry(s, name);
      assert t[n + 1..] == name && t[..n] == s[..n] && s[n + 1..] == "";
    }
  }

  lemma {:induction false} LastSlashEntry(s: string, name: string)
    requires EndsSlash(s) && '/' !in name
    ensures LastSlash(s + name) == |s| - 1
  {
    var t := s + name;
    if name == "" {
      assert t == s;
    } else {
      assert t[..|t| - 1] == s + name[..|name| - 1] && t[|t| - 1] == name[|name| - 1];
      LastSlashEntry(s, name[..|name| - 1]);
    }
  }

  lemma ParseSlash(s: string)
    ensures Parse(s + "/") == Parse(s)
  {
    var t := s + "/";
    assert LastSlash(t) == |s| && t[..|s|] == s && t[|s| + 1..] == "";
  }

  // ----- Less of the same tree -----

  ghost predicate Part(d: Tree, d': Tree) {
    forall q :: q in d' ==> q in d && d'[q] == d[q]
  }

  /** Only files at and below `p` are missing. */
  ghost predicate Confined(d: Tree, d': Tree, p: Path) {
    Part(d, d') && forall q :: q in d && !(p <= q) ==> q in d'
  }

  function Without(d: Tree, p: Path): Tree {
    map q | q in d && !(p <= q) :: d[q]
  }

  /** With less of the tree a path name leads where it did, or nowhere. */
  lemma {:induction false} WalkPart(d: Tree, d': Tree, cs: Path, follow: bool)
    requires Part(d, d')
    ensures Walk(d', cs, follow) == None || Walk(d', cs, follow) == Walk(d, cs, follow)
    decreases |cs|
  {
    if cs != [] { WalkPart(d, d', cs[..|cs| - 1], true); }
  }

  /** The name leads to `p` if anywhere. */
  ghost predicate At(d: Tree, s: string, p: Path) {
    Named(d, s) == None || Named(d, s) == Some(p)
  }

  lemma AtPart(d: Tree, d': Tree, s: string, p: Path)
    requires Part(d, d') && At(d, s, p)
    ensures At(d', s, p)
  {
    WalkPart(d, d', Parse(s), EndsSlash(s));
  }

  /** Anything but a link is where its name leads, with or without the last link followed. */
  lemma NamedIsReal(d: Tree, s: string, p: Path)
    requires Named(d, s) == Some(p) && p in d && !d[p].Symlink?
    ensures Walk(d, Parse(s), true) == Some(p)
  {
    if !EndsSlash(s) { WalkNoLink(d, Parse(s), p); }
  }

  lemma WalkNoLink(d: Tree, cs: Path, p: Path)
    requires Walk(d, cs, false) == Some(p) && p in d && !d[p].Symlink?
    ensures Walk(d, cs, true) == Some(p)
  {}

  /** What the name of an entry leads to, given where the name of its directory leads. */
  lemma EntryAt(d: Tree, s: string, p: Path, name: string)
    requires EndsSlash(s) && At(d, s, p) && '/' !in name && !IsDot(name) && name != ""
    ensures At(d, s + name, p + [name])
  {
    WalkEntry(d, s, name);
  }

  lemma WalkEntry(d: Tree, s: string, name: string)
    requires TakesName(s) && '/' !in name && name != ""
    ensures var up := Walk(d, Parse(s), true);
      Named(d, s + name) == if up.None? then None else Step(d, up.value, name, false)
  {
    ParseEntry(s, name);
    WalkSnoc(d, Parse(s), name);
  }

  lemma WalkSnoc(d: Tree, cs: Path, name: string)
    ensures var up := Walk(d, cs, true);
      Walk(d, cs + [name], false) == if up.None? then None else Step(d, up.value, name, false)
  {
    assert (cs + [name])[..|cs|] == cs;
  }

  /** "." and ".." and the name of a directory with a slash lead to directories. */
  lemma DotIsFolder(d: Tree, s: string, name: string)
    requires EndsSlash(s) && (IsDot(name) || name == "") && Sound(d) && Named(d, s + name).Some?
    ensures Named(d, s + name).value in d && d[Named(d, s + name).value].Folder?
  {
    if name == "" {
      assert s + name == s;
    } else {
      WalkEntry(d, s, name);
      DotStep(d, Walk(d, Parse(s), true).value, name);
    }
  }

  lemma DotStep(d: Tree, up: Path, name: string)
    requires IsDot(name) && Sound(d) && Step(d, up, name, false).Some?
    ensures Step(d, up, name, false).value in d && d[Step(d, up, name, false).value].Folder?
  {
    assert SoundAt(d, up);
  }

  // ----- The system -----

  /** An entry as readdir_r reports it; nothing is assumed about the type. */
  datatype DirEntry = DirEntry(name: string, dtype: DType)

  ghost predicate Childless(d: Tree, p: Path) {
    forall q :: q in d ==> !(p < q)
  }

  /** Every entry of directory `p` is reported once, and besides them at most "." and "..". */
  ghost predicate Snapshot(d: Tree, p: Path, es: seq<DirEntry>) {
    && (forall j :: 0 <= j < |es| ==> IsDot(es[j].name) || p + [es[j].name] in d)
    && (forall name :: p + [name] in d ==> Reported(es, name))
    && (forall i, j :: 0 <= i < j < |es| ==> es[i].name != es[j].name)
  }

  /** The type reported for an entry is right, or is not reported. */
  predicate RightType(d: Tree, p: Path, e: DirEntry) {
    e.dtype.DtUnknown? ||
    if IsDot(e.name) then e.dtype.DtDir?
    else p + [e.name] in d && match d[p + [e.name]]
                              case Folder => e.dtype.DtDir?
                              case File => e.dtype.DtReg?
                              case Symlink(_) => e.dtype.DtLnk?
                              case Other => e.dtype.DtOther?
  }

  /** What unlink can remove: anything but a directory. */
  ghost predicate CanUnlink(d: Tree, s: string) {
    var p := Named(d, s); p.Some? && p.value in d && !d[p.value].Folder?
  }

  /** What rmdir can remove: an empty directory, not the root, under a name that ends in no link and no dot. */
  ghost predicate CanRmdir(d: Tree, s: string) {
    var cs := Parse(s);
    var p := Walk(d, cs, false);
    && s != "" && p.Some? && p.value != [] && p.value in d && !IsDot(cs[|cs| - 1])
    && d[p.value].Folder? && Childless(d, p.value)
  }

  ghost predicate Reported(es: seq<DirEntry>, name: string) {
    exists j :: 0 <= j < |es| && es[j].name == name
  }

  /** Taking out a file that nothing lies below leaves a tree. */
  lemma LeafRemoved(d: Tree, p: Path)
    requires Sound(d) && p in d && p != [] && (d[p].Folder? ==> Childless(d, p))
    ensures Sound(d - {p}) && d - {p} == Without(d, p)
  {
    NothingBelow(d, p);
    forall q ensures SoundAt(d - {p}, q) {
      assert SoundAt(d, q);
      if q in d && q != [] { assert q[..|q| - 1] < q; }
    }
    assert d - {p} == Without(d, p);
  }

  lemma NothingBelow(d: Tree, p: Path)
    requires Sound(d) && p in d && (d[p].Folder? ==> Childless(d, p))
    ensures forall q :: q in d && p <= q ==> q == p
  {
    forall q | q in d ensures p <= q ==> q == p {
      PrefixTake(p, q);
      if |p| < |q| { Ancestor(d, q, |p|); }
    }
  }

  lemma PrefixTake(p: Path, q: Path)
    ensures p <= q ==> q[..|p|] == p && (p < q || p == q)
  {}

  /** The calls that the deletion makes. Any of them may fail at any time, and then changes nothing. */
  class Disk {
    var nodes: Tree
    /** Some call has failed although nothing stood in its way, or has reported a wrong type. */
    ghost var trouble: bool

    method Lstat(s: string) returns (k: Option<Kind>)
      modifies this`trouble
      ensures old(trouble) ==> trouble
      ensures !trouble && Named(nodes, s).Some? && Named(nodes, s).value in nodes ==> k.Some?
      ensures k.Some? ==>
        Named(nodes, s).Some? && Named(nodes, s).value in nodes && k.value == nodes[Named(nodes, s).value]
    {
      var p := Named(nodes, s);
      if * {
        trouble := true;
        return None;
      }
      return if p.Some? && p.value in nodes then Some(nodes[p.value]) else None;
    }

    method Stat(s: string) returns (k: Option<Kind>)
      modifies this`trouble
      ensures old(trouble) ==> trouble
      ensures !trouble && s != "" && Walk(nodes, Parse(s), true).Some? && Walk(nodes, Parse(s), true).value in nodes
        ==> k.Some?
      ensures k.Some? ==> Walk(nodes, Parse(s), true).Some? && var p := Walk(nodes, Parse(s), true).value;
        p in nodes && k.value == nodes[p]
    {
      var p := Walk(nodes, Parse(s), true);
      if * {
        trouble := true;
        return None;
      }
      return if s != "" && p.Some? && p.value in nodes then Some(nodes[p.value]) else None;
    }

    method Unlink(s: string) returns (ok: bool)
      requires Sound(nodes)
      modifies this
      ensures Sound(nodes) && (!ok ==> nodes == old(nodes)) && (old(trouble) ==> trouble)
      ensures !trouble ==> (ok <==> CanUnlink(old(nodes), s))
      ensures ok ==> Named(old(nodes), s).Some? && var p := Named(old(nodes), s).value;
        p in old(nodes) && !old(nodes)[p].Folder? && nodes == Without(old(nodes), p)
    {
      var p := Named(nodes, s);
      if * {
        trouble := true;
        return false;
      }
      if p.None? || p.value !in nodes || nodes[p.value].Folder? {
        return false;
      }
      LeafRemoved(nodes, p.value);
      nodes := nodes - {p.value};
      return true;
    }

    method Rmdir(s: string) returns (ok: bool)
      requires Sound(nodes)
      modifies this
      ensures Sound(nodes) && (!ok ==> nodes == old(nodes)) && (old(trouble) ==> trouble)
      ensures !trouble ==> (ok <==> CanRmdir(old(nodes), s))
      ensures ok ==> Named(old(nodes), s).Some? && var p := Named(old(nodes), s).value;
        p in old(nodes) && old(nodes)[p].Folder? && Childless(old(nodes), p) && nodes == Without(old(nodes), p)
    {
      var p := Walk(nodes, Parse(s), false);
      if * {
        trouble := true;
        return false;
      }
      if s == "" || p.None? || p.value == [] || p.value !in nodes || IsDot(Parse(s)[|Parse(s)| - 1]) {
        return false;
      }
      if !nodes[p.value].Folder? || exists q :: q in nodes && p.value < q {
        return false;
      }
      EntryIsNamed(nodes, s, p.value);
      LeafRemoved(nodes, p.value);
      nodes := nodes - {p.value};
      return true;
    }

    /** The C library tries unlink first, and rmdir on what is a directory. */
    method Remove(s: string) returns (ok: bool)
      requires Sound(nodes)
      modifies this
      ensures Sound(nodes) && (!ok ==> nodes == old(nodes)) && (old(trouble) ==> trouble)
      ensures !trouble ==> (ok <==> CanUnlink(old(nodes), s) || CanRmdir(old(nodes), s))
      ensures ok ==> Named(old(nodes), s).Some? && var p := Named(old(nodes), s).value;
        p in old(nodes) && (old(nodes)[p].Folder? ==> Childless(old(nodes), p)) && nodes == Without(old(nodes), p)
    {
      ok := Unlink(s);
      if !ok {
        ok := Rmdir(s);
      }
    }

    method OpenDir(s: string) returns (es: Option<seq<DirEntry>>)
      modifies this`trouble
      ensures old(trouble) ==> trouble
      ensures !trouble && s != "" ==>
        var p := Walk(nodes, Parse(s), true);
        && (p.Some? && p.value in nodes && nodes[p.value].Folder? ==> es.Some?)
        && (p.Some? && es.Some? ==> forall j :: 0 <= j < |es.value| ==> RightType(nodes, p.value, es.value[j]))
      ensures es.Some? ==> Walk(nodes, Parse(s), true).Some? && var p := Walk(nodes, Parse(s), true).value;
        p in nodes && nodes[p].Folder? && Snapshot(nodes, p, es.value)
    {
      var p := Walk(nodes, Parse(s), true);
      if * {
        trouble := true;
        return None;
      }
      if s == "" || p.None? || p.value !in nodes || !nodes[p.value].Folder? {
        return None;
      }
      var all := ReadAll(p.value);
      return Some(all);
    }

    /** The entries in some order, with some types. */
    method ReadAll(p: Path) returns (es: seq<DirEntry>)
      modifies this`trouble
      ensures Snapshot(nodes, p, es) && (old(trouble) ==> trouble)
      ensures !trouble ==> forall j :: 0 <= j < |es| ==> RightType(nodes, p, es[j])
    {
      var rest := (set q | q in nodes && |q| == |p| + 1 && p <= q :: q[|p|]) + {".", ".."};
      ghost var names := rest;
      assert forall name :: p + [name] in nodes ==> name in names by {
        forall name | p + [name] in nodes ensures name in names {
          assert (p + [name])[|p|] == name;
        }
      }
      es := [];
      while rest != {}
        invariant rest <= names
        invariant forall j :: 0 <= j < |es| ==> es[j].name in names && es[j].name !in rest
        invariant forall i, j :: 0 <= i < j < |es| ==> es[i].name != es[j].name
        invariant old(trouble) ==> trouble
        invariant !trouble ==> forall j :: 0 <= j < |es| ==> RightType(nodes, p, es[j])
        invariant forall name :: name in names && name !in rest ==> Reported(es, name)
        decreases rest
      {
        var name :| name in rest;
        var dtype;
        if {
          case true => dtype := DtDir;
          case true => dtype := DtReg;
          case true => dtype := DtLnk;
          case true => dtype := DtUnknown;
          case true => dtype := DtOther;
        }
        if !RightType(nodes, p, DirEntry(name, dtype)) {
          trouble := true;
        }
        ghost var before := es;
        es := es + [DirEntry(name, dtype)];
        MoreReported(before, es, rest, name, names);
        rest := rest - {name};
      }
      forall name | name in names ensures IsDot(name) || p + [name] in nodes {
        if !IsDot(name) {
          var q :| q in nodes && |q| == |p| + 1 && p <= q && q[|p|] == name;
          assert q == p + [name];
        }
      }
    }
  }

  lemma MoreReported(es: seq<DirEntry>, more: seq<DirEntry>, rest: set<string>, name: string, names: set<string>)
    requires |more| == |es| + 1 && more[..|es|] == es && more[|es|].name == name
    requires forall n :: n in names && n !in rest ==> Reported(es, n)
    ensures forall n :: n in names && n !in rest - {name} ==> Reported(more, n)
  {
    forall n | n in names && n !in rest - {name} ensures Reported(more, n) {
      if n == name {
        assert more[|es|].name == n;
      } else {
        assert Reported(es, n);
        var j :| 0 <= j < |es| && es[j].name == n;
        assert more[j] == more[..|es|][j];
      }
    }
  }

  /** The entry that rmdir and unlink take out is the one that lstat sees, unless it is a link with a slash. */
  lemma EntryIsNamed(d: Tree, s: string, p: Path)
    requires s != "" && Walk(d, Parse(s), false) == Some(p) && p in d && (EndsSlash(s) ==> d[p].Folder?)
    ensures Named(d, s) == Some(p)
  {
    if EndsSlash(s) { WalkNoLink(d, Parse(s), p); }
  }

  // ----- The buffer, to its last character -----

  method Append(path: PathBuffer, name: string, ghost text: string) returns (ok: bool)
    requires path.Holds(text) && NoNul(name) && name != ""
    modifies path, path.data
    ensures path.Keeps(text) && (ok <==> |text| + |name| <= PATH_MAX) && (ok ==> path.Holds(text + name))
  {
    ok := path.Add(name);
  }

  method Current(path: PathBuffer, ghost text: string) returns (s: string)
    requires path.Holds(text)
    ensures s == Cut(text)
  {
    s := path.AsString();
    FirstNul(path.data[..], |s|, Cut(text));
  }

  method Rewind(path: PathBuffer, length: nat, ghost text: string)
    requires path.Keeps(text) && length == |text|
    modifies path, path.data
    ensures path.Holds(text)
  {
    path.Reset(length);
  }

  // ----- What one entry can take with it -----

  /** The part of a name that still fits the buffer. */
  ghost function Shown(text: string, name: string): string
    requires name != ""
  {
    if |text| + |name| < PATH_MAX then name else name[..|name| - 1]
  }

  lemma CutEntry(text: string, name: string)
    requires name != "" && |text| + |name| <= PATH_MAX
    ensures Cut(text + name) == text + Shown(text, name)
  {}

  /** Names that stand for a directory already known. */
  predicate Nothing(name: string) { name == "" || IsDot(name) }

  /** Deleting the entry `name` of directory `p` takes at most what its shown name stands for. */
  ghost predicate Took(d: Tree, d': Tree, p: Path, text: string, name: string, ok: bool)
    requires name != ""
  {
    var m := Shown(text, name);
    if IsDot(name) then d' == d
    else if |text| + |name| > PATH_MAX then d' == d && !ok
    else if Nothing(m) then d' == d
    else Confined(d, d', p + [m]) && (ok && m == name ==> d' == Without(d, p + [m]))
  }

  lemma WithoutConfined(d: Tree, p: Path)
    ensures Confined(d, Without(d, p), p) && Confined(d, d, p)
  {}

  /** The directory whose entries are being deleted. */
  ghost predicate Inside(d: Tree, text: string, p: Path) {
    Sound(d) && EndsSlash(text) && At(d, Cut(text), p)
  }

  lemma InsidePart(d: Tree, d': Tree, text: string, p: Path)
    requires Inside(d, text, p) && Part(d, d') && Sound(d')
    ensures Inside(d', text, p)
  {
    AtPart(d, d', Cut(text), p);
  }

  /** Where the buffer leads once the name of an entry has been appended. */
  lemma EntryShown(d: Tree, text: string, p: Path, name: string)
    requires Inside(d, text, p) && GoodName(name) && |text| + |name| <= PATH_MAX
    ensures var s, m := Cut(text + name), Shown(text, name);
      if Nothing(m) then Named(d, s).Some? ==> Named(d, s).value in d && d[Named(d, s).value].Folder?
      else At(d, s, p + [m])
  {
    var m := Shown(text, name);
    CutEntry(text, name);
    if !Nothing(m) {
      EntryAt(d, text, p, m);
    } else if Named(d, text + m).Some? {
      DotIsFolder(d, text, m);
    }
  }

  method DeleteFile(disk: Disk, path: PathBuffer, name: string, ghost text: string, ghost p: Path) returns (ok: bool)
    requires Inside(disk.nodes, text, p) && path.Holds(text) && GoodName(name)
    modifies disk, path, path.data
    ensures Sound(disk.nodes) && path.Keeps(text) && Took(old(disk.nodes), disk.nodes, p, text, name, ok)
    ensures old(disk.trouble) ==> disk.trouble
    ensures !disk.trouble && |text| + |name| < PATH_MAX && CanUnlink(old(disk.nodes), text + name) ==> ok
  {
    ok := Append(path, name, text);
    if ok {
      EntryShown(disk.nodes, text, p, name);
      var s := Current(path, text + name);
      ok := disk.Unlink(s);
      path.KeepsPrefix(text, text + name);
      if !Nothing(Shown(text, name)) { WithoutConfined(old(disk.nodes), p + [Shown(text, name)]); }
    }
  }

  // ----- What can be deleted -----

  /** The tree without what lies below `p`. */
  ghost function Bare(d: Tree, p: Path): Tree {
    map q | q in d && !(p < q) :: d[q]
  }

  /** The characters that the components `cs` add to a path, with a separator before each. */
  ghost function Length(cs: Path): nat {
    if cs == [] then 0 else 1 + |cs[0]| + Length(cs[1..])
  }

  /** At and below `p` there is nothing but folders, files and links. */
  ghost predicate Plain(d: Tree, p: Path) {
    forall q :: q in d && p <= q ==> !d[q].Other?
  }

  /** A path of length `n` that leads to `p` can be extended to everything below, and there by "/..". */
  ghost predicate Roomy(d: Tree, p: Path, n: nat) {
    forall q :: q in d && p <= q ==> n + Length(q[|p|..]) + 3 < PATH_MAX
  }

  /** The components `cs` lead to `p` itself, neither through a link at the end nor through what lies below. */
  ghost predicate Lasting(d: Tree, cs: Path, p: Path) {
    p in d && p != [] && cs != [] && !IsDot(cs[|cs| - 1]) && Walk(Bare(d, p), cs, false) == Some(p)
  }

  /** Nothing stands in the way of deleting `p` under the name `text`. */
  ghost predicate Deletable(d: Tree, text: string, p: Path) {
    && text != "" && Lasting(d, Parse(text), p) && Plain(d, p) && Roomy(d, p, |text|)
    && (EndsSlash(text) ==> d[p].Folder?)
  }

  /** The same of directory `p` when its name ends in a separator. */
  ghost predicate Emptiable(d: Tree, text: string, p: Path) {
    && EndsSlash(text) && Lasting(d, Parse(text), p) && d[p].Folder? && Plain(d, p) && Roomy(d, p, |text| - 1)
  }

  /** Nothing stands in the way of deleting entry `e` of directory `p`. */
  ghost predicate EntryDeletable(d: Tree, text: string, p: Path, e: DirEntry) {
    && RightType(d, p, e) && |text| + |e.name| < PATH_MAX && Walk(d, Parse(text), true) == Some(p)
    && p in d && d[p].Folder? && (!IsDot(e.name) ==> Deletable(d, text + e.name, p + [e.name]))
  }

  /** A path that needs only `b` leads in a larger tree where it leads in `b`. */
  lemma WalkInLarger(b: Tree, d: Tree, cs: Path, follow: bool, p: Path)
    requires Part(d, b) && Walk(b, cs, follow) == Some(p)
    ensures Walk(d, cs, follow) == Some(p)
  {
    WalkPart(d, b, cs, follow);
  }

  lemma LastingLeads(d: Tree, d': Tree, cs: Path, p: Path)
    requires Lasting(d, cs, p) && Part(d', Bare(d, p))
    ensures Walk(d', cs, false) == Some(p) && p in d' && d'[p] == d[p]
    ensures !d[p].Symlink? ==> Walk(d', cs, true) == Some(p)
  {
    WalkInLarger(Bare(d, p), d', cs, false, p);
    assert p in Bare(d, p);
    if !d[p].Symlink? { WalkNoLink(d', cs, p); }
  }

  lemma DeletableNamed(d: Tree, text: string, p: Path)
    requires Deletable(d, text, p)
    ensures Named(d, text) == Some(p) && p in d && |text| + 3 < PATH_MAX
  {
    LastingLeads(d, d, Parse(text), p);
    assert p <= p && p[|p|..] == [];
  }

  /** A folder that can be deleted can be emptied first. */
  lemma DeletableOpened(d: Tree, text: string, p: Path)
    requires Deletable(d, text, p) && d[p].Folder?
    ensures Emptiable(d, text + "/", p)
  {
    ParseSlash(text);
  }

  lemma EmptiableLeads(d: Tree, d': Tree, text: string, p: Path)
    requires Emptiable(d, text, p) && Part(d', Bare(d, p))
    ensures Walk(d', Parse(text), true) == Some(p) && Walk(d', Parse(text), false) == Some(p)
    ensures p in d' && d'[p].Folder? && |text| + 2 < PATH_MAX
  {
    LastingLeads(d, d', Parse(text), p);
    assert p <= p && p[|p|..] == [];
  }

  lemma ChildLasting(d: Tree, d1: Tree, cs: Path, p: Path, name: string)
    requires Lasting(d, cs, p) && d[p].Folder? && Part(d1, Bare(d, p)) && p + [name] in d1 && !IsDot(name)
    ensures Lasting(d1, cs + [name], p + [name])
  {
    var child := p + [name];
    var b := Bare(d1, child);
    forall q | q in Bare(d, p) ensures q in b && b[q] == d[q] {
      if child < q { BelowChild(p, name, q); }
    }
    LastingLeads(d, b, cs, p);
    WalkSnoc(b, cs, name);
  }

  lemma ChildRoomy(d: Tree, d1: Tree, p: Path, n: nat, name: string)
    requires Roomy(d, p, n) && Plain(d, p) && Part(d, d1)
    ensures Roomy(d1, p + [name], n + 1 + |name|) && Plain(d1, p + [name])
  {
    var child := p + [name];
    forall q | q in d1 && child <= q
      ensures n + 1 + |name| + Length(q[|child|..]) + 3 < PATH_MAX && !d1[q].Other?
    {
      BelowChild(p, name, q);
      assert q[|p|..][0] == name && q[|p|..][1..] == q[|child|..];
    }
  }

  // ----- What all entries take with them -----

  ghost predicate Gone(p: Path, es: seq<DirEntry>, i: nat, q: Path) {
    exists j :: 0 <= j < i && j < |es| && !IsDot(es[j].name) && p + [es[j].name] <= q
  }

  /** The tree without the first `i` entries of directory `p`. */
  ghost function Minus(d: Tree, p: Path, es: seq<DirEntry>, i: nat): Tree {
    map q | q in d && !Gone(p, es, i, q) :: d[q]
  }

  /** Some entry's name fills the buffer exactly, and so loses its last character. */
  ghost predicate SomeCut(es: seq<DirEntry>, text: string) {
    exists j :: 0 <= j < |es| && !IsDot(es[j].name) && |text| + |es[j].name| == PATH_MAX
  }

  ghost predicate CutKept(d: Tree, d': Tree, p: Path, text: string) {
    forall name :: |text| + |name| == PATH_MAX && p + [name] in d ==> p + [name] in d'
  }

  /** After `i` entries: exactly these are gone, unless a name was cut; then that entry remains. */
  ghost predicate Progress(d: Tree, d': Tree, p: Path, es: seq<DirEntry>, i: nat, text: string) {
    && Confined(d, d', p) && p in d' && CutKept(d, d', p, text)
    && (!SomeCut(es, text) ==> d' == Minus(d, p, es, i))
  }

  lemma ProgressStart(d: Tree, p: Path, es: seq<DirEntry>, text: string)
    requires p in d
    ensures Progress(d, d, p, es, 0, text)
  {
    assert Minus(d, p, es, 0) == d;
  }

  lemma MinusNext(d: Tree, p: Path, es: seq<DirEntry>, i: nat)
    requires i < |es|
    ensures Minus(d, p, es, i + 1) ==
      if IsDot(es[i].name) then Minus(d, p, es, i) else Without(Minus(d, p, es, i), p + [es[i].name])
  {
    forall q ensures Gone(p, es, i + 1, q) <==> Gone(p, es, i, q) || (!IsDot(es[i].name) && p + [es[i].name] <= q) {}
  }

  lemma ProgressNext(d: Tree, d1: Tree, d2: Tree, p: Path, es: seq<DirEntry>, i: nat, text: string)
    requires i < |es| && GoodName(es[i].name) && Progress(d, d1, p, es, i, text)
    requires Took(d1, d2, p, text, es[i].name, true)
    ensures Progress(d, d2, p, es, i + 1, text)
  {
    var name := es[i].name;
    MinusNext(d, p, es, i);
    if d2 != d1 {
      var m := Shown(text, name);
      forall q | q in d && !(p <= q) ensures q in d2 {
        assert !(p + [m] <= q) by { BelowChild(p, m, q); }
      }
      BelowChild(p, m, p);
      forall c | |text| + |c| == PATH_MAX && p + [c] in d ensures p + [c] in d2 {
        BelowChild(p, m, p + [c]);
      }
    }
  }

  lemma BelowChild(p: Path, m: string, q: Path)
    ensures p + [m] <= q ==> p <= q && |q| > |p| && q[|p|] == m
  {
    if p + [m] <= q {
      assert q[..|p| + 1] == p + [m];
      assert q[..|p|] == q[..|p| + 1][..|p|];
      assert q[|p|] == q[..|p| + 1][|p|];
    }
  }

  /** A directory with an entry whose name was cut is never empty. */
  lemma CutRemains(d: Tree, d': Tree, p: Path, es: seq<DirEntry>, text: string)
    requires Snapshot(d, p, es) && CutKept(d, d', p, text) && SomeCut(es, text)
    ensures !Childless(d', p)
  {
    var j :| 0 <= j < |es| && !IsDot(es[j].name) && |text| + |es[j].name| == PATH_MAX;
    assert p < p + [es[j].name];
  }

  /** When the directory itself can be removed in the end, nothing at or below it is left. */
  lemma AllGone(d: Tree, d': Tree, p: Path, es: seq<DirEntry>, text: string)
    requires Sound(d) && Snapshot(d, p, es) && Progress(d, d', p, es, |es|, text) && Childless(d', p)
    ensures Without(d', p) == Without(d, p)
  {
    if SomeCut(es, text) { CutRemains(d, d', p, es, text); }
    assert forall q :: q in d && !(p <= q) ==> q in d' && d'[q] == d[q];
  }

  // ----- Deletion -----

  method DeleteDir(disk: Disk, path: PathBuffer, name: string, ghost text: string, ghost p: Path) returns (ok: bool)
    requires Inside(disk.nodes, text, p) && path.Holds(text) && GoodName(name)
    modifies disk, path, path.data
    ensures Sound(disk.nodes) && path.Keeps(text) && Took(old(disk.nodes), disk.nodes, p, text, name, ok)
    ensures old(disk.trouble) ==> disk.trouble
    ensures IsDot(name) || (!disk.trouble && Deletable(old(disk.nodes), text + name, p + [name])) ==> ok
    decreases PATH_MAX - |text|, 0
  {
    if name == "." {
      return true;
    }
    if name == ".." {
      return true;
    }
    if Deletable(disk.nodes, text + name, p + [name]) { DeletableNamed(disk.nodes, text + name, p + [name]); }
    ok := Append(path, name, text);
    if ok {
      EntryShown(disk.nodes, text, p, name);
      ghost var m, at := Shown(text, name), Named(disk.nodes, Cut(text + name));
      ghost var q := if !Nothing(m) then p + [m] else if at.Some? then at.value else p;
      ok := DeleteRecursively(disk, path, text + name, q);
      path.KeepsPrefix(text, text + name);
    }
  }

  /** What lstat finds for an entry that can be deleted, and that unlink can remove it if it is no directory. */
  lemma EntrySeen(d: Tree, text: string, p: Path, e: DirEntry)
    requires Inside(d, text, p) && GoodName(e.name) && EntryDeletable(d, text, p, e)
    ensures Cut(text + e.name) == text + e.name
    ensures var at := Named(d, text + e.name);
      && at.Some? && at.value in d
      && (if IsDot(e.name) then d[at.value].Folder?
          else at.value == p + [e.name] && !d[at.value].Other? &&
               (!d[at.value].Folder? ==> CanUnlink(d, text + e.name)))
  {
    WalkEntry(d, text, e.name);
    if IsDot(e.name) {
      assert SoundAt(d, p);
      DotIsFolder(d, text, e.name);
    } else {
      DeletableNamed(d, text + e.name, p + [e.name]);
      assert p + [e.name] <= p + [e.name];
    }
  }

  /** The switch on the type of an entry. */
  method DeleteEntry(disk: Disk, path: PathBuffer, e: DirEntry, ghost text: string, ghost p: Path) returns (ok: bool)
    requires Inside(disk.nodes, text, p) && path.Holds(text) && GoodName(e.name)
    modifies disk, path, path.data
    ensures Sound(disk.nodes) && path.Keeps(text) && Took(old(disk.nodes), disk.nodes, p, text, e.name, ok)
    ensures old(disk.trouble) ==> disk.trouble
    ensures !disk.trouble && EntryDeletable(old(disk.nodes), text, p, e) ==> ok
    decreases PATH_MAX - |text|, 1
  {
    if EntryDeletable(disk.nodes, text, p, e) { EntrySeen(disk.nodes, text, p, e); }
    var length := path.length;
    match e.dtype
    case DtDir => ok := DeleteDir(disk, path, e.name, text, p);
    case DtReg => ok := DeleteFile(disk, path, e.name, text, p);
    case DtLnk => ok := DeleteFile(disk, path, e.name, text, p);
    case DtOther => ok := false;
    case DtUnknown =>
      ok := Append(path, e.name, text);
      if !ok {
        return;
      }
      var s := Current(path, text + e.name);
      var kind := disk.Lstat(s);
      path.KeepsPrefix(text, text + e.name);
      if kind.None? {
        return false;
      }
      Rewind(path, length, text);
      if kind.value.Folder? {
        ok := DeleteDir(disk, path, e.name, text, p);
      } else if kind.value.File? || kind.value.Symlink? {
        ok := DeleteFile(disk, path, e.name, text, p);
      } else {
        ok := false;
      }
  }

  /** The loop over the entries of an open directory, and the removal of the directory itself. */
  method DeleteEntries(disk: Disk, path: PathBuffer, es: seq<DirEntry>, ghost text: string, ghost p: Path)
    returns (ok: bool)
    requires Inside(disk.nodes, text, p) && path.Holds(text)
    requires p in disk.nodes && disk.nodes[p].Folder? && Snapshot(disk.nodes, p, es)
    modifies disk, path, path.data
    ensures Sound(disk.nodes) && path.Keeps(text) && Confined(old(disk.nodes), disk.nodes, p)
    ensures ok ==> disk.nodes == Without(old(disk.nodes), p)
    ensures old(disk.trouble) ==> disk.trouble
    ensures !disk.trouble && Emptiable(old(disk.nodes), text, p) && RightTypes(old(disk.nodes), p, es) ==> ok
    decreases PATH_MAX - |text|, 2
  {
    ghost var d := disk.nodes;
    var length := path.length;
    ProgressStart(d, p, es, text);
    for i := 0 to |es|
      invariant Inside(disk.nodes, text, p) && path.Holds(text) && Progress(d, disk.nodes, p, es, i, text)
      invariant old(disk.trouble) ==> disk.trouble
    {
      if * {
        disk.trouble := true;
        return false;  // readdir_r fails
      }
      ghost var d1 := disk.nodes;
      EntryIsGood(d, p, es, i);
      if Emptiable(d, text, p) && RightTypes(d, p, es) { NextDeletable(d, d1, p, es, i, text); }
      ok := DeleteEntry(disk, path, es[i], text, p);
      TookConfined(d, d1, disk.nodes, p, text, es[i].name, ok);
      if !ok {
        return false;
      }
      ProgressNext(d, d1, disk.nodes, p, es, i, text);
      InsidePart(d1, disk.nodes, text, p);
      Rewind(path, length, text);
    }
    ok := DeleteEmptied(disk, path, es, text, p, d);
  }

  /** The end of the loop: `d` is the tree from which all entries were deleted. */
  method DeleteEmptied(
    disk: Disk, path: PathBuffer, ghost es: seq<DirEntry>, ghost text: string, ghost p: Path, ghost d: Tree)
    returns (ok: bool)
    requires Sound(d) && Inside(disk.nodes, text, p) && path.Holds(text) && Progress(d, disk.nodes, p, es, |es|, text)
    requires p in d && d[p].Folder? && Snapshot(d, p, es)
    modifies disk
    ensures Sound(disk.nodes) && Confined(d, disk.nodes, p) && (ok ==> disk.nodes == Without(d, p))
    ensures old(disk.trouble) ==> disk.trouble
    ensures !disk.trouble && Emptiable(d, text, p) ==> ok
  {
    if * {
      disk.trouble := true;
      return false;  // closedir fails
    }
    ghost var d1 := disk.nodes;
    if Emptiable(d, text, p) { EmptiedRemovable(d, d1, p, es, text); }
    var s := Current(path, text);
    ok := disk.Remove(s);
    if ok {
      AllGone(d, d1, p, es, text);
      WithoutConfined(d, p);
    }
  }

  ghost predicate RightTypes(d: Tree, p: Path, es: seq<DirEntry>) {
    forall j :: 0 <= j < |es| ==> RightType(d, p, es[j])
  }

  lemma BareInMinus(d: Tree, p: Path, es: seq<DirEntry>, i: nat)
    ensures Part(Minus(d, p, es, i), Bare(d, p)) && Part(d, Minus(d, p, es, i))
  {
    forall q | Gone(p, es, i, q) ensures p < q {
      var j :| 0 <= j < i && j < |es| && !IsDot(es[j].name) && p + [es[j].name] <= q;
      BelowChild(p, es[j].name, q);
    }
  }

  /** In a directory with room no name is cut, and what is left is what was not yet deleted. */
  lemma EmptiableExact(d: Tree, d1: Tree, p: Path, es: seq<DirEntry>, i: nat, text: string)
    requires Emptiable(d, text, p) && Snapshot(d, p, es) && Progress(d, d1, p, es, i, text)
    ensures d1 == Minus(d, p, es, i) && !SomeCut(es, text)
  {
    forall j | 0 <= j < |es| && !IsDot(es[j].name) ensures |text| + |es[j].name| < PATH_MAX {
      ChildFits(d, p, es[j].name, |text| - 1);
    }
  }

  lemma ChildFits(d: Tree, p: Path, name: string, n: nat)
    requires Roomy(d, p, n) && p + [name] in d
    ensures n + 1 + |name| + 3 < PATH_MAX
  {
    var q := p + [name];
    assert p <= q && q[|p|..] == [name] && [name][1..] == [];
  }

  /** The next entry is still there, and nothing stands in the way of deleting it. */
  lemma NextDeletable(d: Tree, d1: Tree, p: Path, es: seq<DirEntry>, i: nat, text: string)
    requires Emptiable(d, text, p) && Snapshot(d, p, es) && RightTypes(d, p, es) && i < |es| && GoodName(es[i].name)
    requires Progress(d, d1, p, es, i, text)
    ensures EntryDeletable(d1, text, p, es[i])
  {
    var name := es[i].name;
    EmptiableExact(d, d1, p, es, i, text);
    BareInMinus(d, p, es, i);
    EmptiableLeads(d, d1, text, p);
    assert RightType(d, p, es[i]);
    if !IsDot(name) {
      ChildFits(d, p, name, |text| - 1);
      NotYetGone(d, p, es, i);
      ParseEntry(text, name);
      ChildLasting(d, d1, Parse(text), p, name);
      ChildRoomy(d, d1, p, |text| - 1, name);
      assert (text + name)[|text + name| - 1] == name[|name| - 1];
    }
  }

  lemma NotYetGone(d: Tree, p: Path, es: seq<DirEntry>, i: nat)
    requires Snapshot(d, p, es) && i < |es| && !IsDot(es[i].name)
    ensures p + [es[i].name] in Minus(d, p, es, i)
  {
    var q := p + [es[i].name];
    if Gone(p, es, i, q) {
      var j :| 0 <= j < i && j < |es| && !IsDot(es[j].name) && p + [es[j].name] <= q;
      BelowChild(p, es[j].name, q);
    }
  }

  /** When all entries are gone, the directory itself can be removed. */
  lemma EmptiedRemovable(d: Tree, d1: Tree, p: Path, es: seq<DirEntry>, text: string)
    requires Sound(d) && Emptiable(d, text, p) && Snapshot(d, p, es) && Progress(d, d1, p, es, |es|, text)
    ensures CanRmdir(d1, text) && Cut(text) == text
  {
    EmptiableExact(d, d1, p, es, |es|, text);
    BareInMinus(d, p, es, |es|);
    EmptiableLeads(d, d1, text, p);
    forall q | p < q ensures q !in d1 {
      if q in d { ChildrenGone(d, p, es, q); }
    }
  }

  lemma ChildrenGone(d: Tree, p: Path, es: seq<DirEntry>, q: Path)
    requires Sound(d) && Snapshot(d, p, es) && q in d && p < q
    ensures Gone(p, es, |es|, q)
  {
    var name := q[|p|];
    Ancestor(d, q, |p| + 1);
    var child := q[..|p| + 1];
    assert child == p + [name] && p + [name] <= q;
    assert SoundAt(d, child) && child[|child| - 1] == name;
    assert Reported(es, name);
  }

  lemma EntryIsGood(d: Tree, p: Path, es: seq<DirEntry>, i: nat)
    requires Sound(d) && Snapshot(d, p, es) && i < |es|
    ensures GoodName(es[i].name)
  {
    if !IsDot(es[i].name) {
      var q := p + [es[i].name];
      assert SoundAt(d, q) && q[|q| - 1] == es[i].name;
    }
  }

  lemma TookConfined(d: Tree, d1: Tree, d2: Tree, p: Path, text: string, name: string, ok: bool)
    requires name != "" && Confined(d, d1, p) && Took(d1, d2, p, text, name, ok)
    ensures Part(d1, d2) && Confined(d, d2, p)
  {
    if d2 != d1 {
      forall q | q in d && !(p <= q) ensures q in d2 {
        BelowChild(p, Shown(text, name), q);
      }
    }
  }

  /**
   On success exactly the file or subtree that the buffer names is gone, links having been removed
   and not followed; on failure nothing outside it is.
   */
  method DeleteRecursively(disk: Disk, path: PathBuffer, ghost text: string, ghost p: Path) returns (ok: bool)
    requires Sound(disk.nodes) && path.Holds(text) && At(disk.nodes, Cut(text), p)
    modifies disk, path, path.data
    ensures Sound(disk.nodes) && path.Keeps(text) && Confined(old(disk.nodes), disk.nodes, p)
    ensures ok ==> p in old(disk.nodes) && disk.nodes == Without(old(disk.nodes), p)
    ensures Named(old(disk.nodes), Cut(text)) == None ==> disk.nodes == old(disk.nodes)
    ensures |text| == PATH_MAX && p in old(disk.nodes) && old(disk.nodes)[p].Folder? ==> disk.nodes == old(disk.nodes)
    ensures old(disk.trouble) ==> disk.trouble
    ensures !disk.trouble && Deletable(old(disk.nodes), text, p) ==> ok
    decreases PATH_MAX - |text|, 3
  {
    WithoutConfined(disk.nodes, p);
    if Deletable(disk.nodes, text, p) {
      DeletableNamed(disk.nodes, text, p);
      assert p <= p;
      if disk.nodes[p].Folder? { DeletableOpened(disk.nodes, text, p); }
    }
    var s := Current(path, text);
    var kind := disk.Lstat(s);
    if kind.None? {
      return false;
    }
    if kind.value.File? || kind.value.Symlink? {
      ok := disk.Unlink(s);
      return;
    }
    var added := Append(path, "/", text);
    if !added {
      return false;
    }
    OpenedName(disk.nodes, text, p);
    s := Current(path, text + "/");
    var es := disk.OpenDir(s);
    path.KeepsPrefix(text, text + "/");
    if es.None? {
      return false;
    }
    ok := DeleteEntries(disk, path, es.value, text + "/", p);
    path.KeepsPrefix(text, text + "/");
  }

  /** With the separator appended the buffer still leads to the same directory. */
  lemma OpenedName(d: Tree, text: string, p: Path)
    requires |text| < PATH_MAX && Named(d, text) == Some(p) && p in d && !d[p].Symlink? && !d[p].File?
    ensures Walk(d, Parse(Cut(text + "/")), true) == Some(p)
    ensures d[p].Folder? ==> At(d, Cut(text + "/"), p)
  {
    var t := text + "/";
    assert |t| == PATH_MAX ==> Cut(t) == text;
    ParseSlash(text);
    NamedIsReal(d, text, p);
  }

  // ----- Names that fill the buffer exactly -----

  predicate IsFolder(d: Tree, at: Option<Path>) {
    at.Some? && at.value in d && d[at.value].Folder?
  }

  lemma StepIn(d: Tree, up: Path, name: string, follow: bool)
    requires Sound(d) && Step(d, up, name, follow).Some?
    ensures Step(d, up, name, follow).value in d
  {
    assert SoundAt(d, up);
  }

  lemma NamedIn(d: Tree, s: string)
    requires Sound(d) && Named(d, s).Some?
    ensures Named(d, s).value in d
  {
    var cs := Parse(s);
    if cs != [] && !EndsSlash(s) { StepIn(d, Walk(d, cs[..|cs| - 1], true).value, cs[|cs| - 1], false); }
  }

  lemma SplitAt(s: string) returns (k: int)
    requires |s| >= 2 && s[|s| - 1] != '/' && s[|s| - 2] != '/'
    ensures -1 <= k < |s| - 2 && (k >= 0 ==> s[k] == '/') && '/' !in s[k + 1..]
  {
    k := LastSlash(s);
    LastSlashSplits(s);
  }

  lemma Halves<T>(s: seq<T>, k: nat)
    requires k < |s|
    ensures s == s[..k] + s[k..] && s[..|s| - 1] == s[..k] + s[k..][..|s| - k - 1]
  {}

  lemma StillNotIn<T>(s: seq<T>, n: nat, x: T)
    requires x !in s && n <= |s|
    ensures x !in s[..n]
  {}

  /** A name without a slash at its end, and the same name one character shorter. */
  lemma SplitName(s: string) returns (up: string, name: string)
    requires |s| >= 2 && s[|s| - 1] != '/' && s[|s| - 2] != '/'
    ensures TakesName(up) && |name| >= 2 && '/' !in name && '/' !in name[..|name| - 1]
    ensures s == up + name && s[..|s| - 1] == up + name[..|name| - 1]
  {
    var k := SplitAt(s);
    Halves(s, k + 1);
    up, name := s[..k + 1], s[k + 1..];
    StillNotIn(name, |name| - 1, '/');
  }

  /** What a name without its last character leads to, unless a directory, is not what the name leads to. */
  lemma CutNamesAnother(d: Tree, s: string, p: Path, q: Path)
    requires Sound(d) && |s| >= 2 && Named(d, s) == Some(p) && Named(d, s[..|s| - 1]) == Some(q)
    requires q in d && !d[q].Folder?
    ensures p != q
  {
    if s[|s| - 1] != '/' && s[|s| - 2] != '/' {
      var up, name := SplitName(s);
      EntriesDiffer(d, up, name, name[..|name| - 1], p, q);
    }
  }

  lemma EntriesDiffer(d: Tree, up: string, name: string, other: string, p: Path, q: Path)
    requires Sound(d) && TakesName(up) && name != "" && other != "" && '/' !in name && '/' !in other && name != other
    requires Named(d, up + name) == Some(p) && Named(d, up + other) == Some(q) && q in d && !d[q].Folder?
    ensures p != q
  {
    WalkEntry(d, up, name);
    WalkEntry(d, up, other);
    StepsDiffer(d, Walk(d, Parse(up), true).value, name, other);
  }

  lemma StepsDiffer(d: Tree, dir: Path, name: string, other: string)
    requires Sound(d) && name != other
    requires Step(d, dir, name, false).Some? && Step(d, dir, other, false).Some?
    requires Step(d, dir, other, false).value in d && !d[Step(d, dir, other, false).value].Folder?
    ensures Step(d, dir, name, false) != Step(d, dir, other, false)
  {
    if IsDot(name) { DotStep(d, dir, name); }
    assert !IsDot(other) by { if IsDot(other) { DotStep(d, dir, other); } }
    assert (dir + [name])[|dir|] == name && (dir + [other])[|dir|] == other;
  }

  lemma WithoutDiffers(d: Tree, p: Path, q: Path)
    requires p in d && q in d && p != q
    ensures Without(d, p) != Without(d, q)
  {
    assert p !in Without(d, p) && q !in Without(d, q);
    assert p <= q && q <= p ==> p == q;
  }

  /** The name is that of a link that leads to a directory. */
  ghost predicate LinkToFolder(d: Tree, s: string) {
    var at, end := Named(d, s), Walk(d, Parse(s), true);
    && at.Some? && at.value in d && d[at.value].Symlink?
    && s != "" && end.Some? && end.value in d && d[end.value].Folder?
  }

  /**
   Directory::Delete. Without `recursive` it removes a link to a directory, or an empty directory;
   with it, the file or subtree that the name leads to after it went through the buffer. That is what
   the name stands for unless the name fills the buffer exactly: then a directory is left alone, and
   a file or link with the shorter name is removed in its place. Unless a call fails without cause, it
   does succeed when nothing stands in the way.
   */
  method Delete(disk: Disk, dirName: string, recursive: bool) returns (ok: bool)
    requires Sound(disk.nodes) && NoNul(dirName)
    modifies disk
    ensures Sound(disk.nodes) && (old(disk.trouble) ==> disk.trouble)
    ensures !ok && !recursive ==> disk.nodes == old(disk.nodes)
    ensures recursive && |dirName| > PATH_MAX ==> !ok && disk.nodes == old(disk.nodes)
    ensures !recursive || |dirName| <= PATH_MAX ==>
      var at := Named(old(disk.nodes), if recursive then Cut(dirName) else dirName);
      && (at.None? ==> !ok && disk.nodes == old(disk.nodes))
      && (at.Some? ==> Confined(old(disk.nodes), disk.nodes, at.value))
      && (ok ==> at.value in old(disk.nodes) && disk.nodes == Without(old(disk.nodes), at.value))
      && (ok && !recursive ==> var kind := old(disk.nodes)[at.value];
                               kind.Symlink? || (kind.Folder? && Childless(old(disk.nodes), at.value)))
      && (recursive && |dirName| == PATH_MAX && IsFolder(old(disk.nodes), at) ==>
            !ok && disk.nodes == old(disk.nodes))
    ensures !disk.trouble && !recursive ==>
      (ok <==> LinkToFolder(old(disk.nodes), dirName) || CanRmdir(old(disk.nodes), dirName))
    ensures !disk.trouble && recursive ==>
      forall p :: Deletable(old(disk.nodes), dirName, p) ==> ok && disk.nodes == Without(old(disk.nodes), p)
    ensures ok && recursive && Named(old(disk.nodes), dirName).Some? ==>
      (disk.nodes == Without(old(disk.nodes), Named(old(disk.nodes), dirName).value) <==> |dirName| != PATH_MAX)
  {
    ghost var d, at := disk.nodes, Named(disk.nodes, if recursive then Cut(dirName) else dirName);
    ghost var p := if at.Some? then at.value else [];
    WithoutConfined(d, p);
    if at.Some? { NamedIn(d, if recursive then Cut(dirName) else dirName); }
    if !recursive {
      var kind := disk.Lstat(dirName);
      var end := disk.Stat(dirName);
      if kind.Some? && kind.value.Symlink? && end.Some? && end.value.Folder? {
        ok := disk.Unlink(dirName);
      } else {
        ok := disk.Rmdir(dirName);
      }
      return;
    }
    forall q | Deletable(d, dirName, q) ensures q == p && |dirName| < PATH_MAX { DeletableNamed(d, dirName, q); }
    var path := new PathBuffer();
    ok := path.Add(dirName);
    assert "" + dirName == dirName;
    if ok {
      ok := DeleteRecursively(disk, path, dirName, p);
      if ok && |dirName| == PATH_MAX && Named(d, dirName).Some? {
        NamedIn(d, dirName);
        CutNamesAnother(d, dirName, Named(d, dirName).value, p);
        WithoutDiffers(d, Named(d, dirName).value, p);
      }
    }
  }

  ghost predicate Short(cs: Path, n: nat) {
    forall i :: 0 <= i < |cs| ==> |cs[i]| <= n
  }

  /** The components of `s` are `cs`; stated for all `t`, so that parsing is not unfolded at every mention. */
  ghost predicate Parses(s: string, cs: Path) {
    forall t :: t == s ==> Parse(t) == cs
  }

  lemma ParsesDot(s: string, cs: Path)
    requires TakesName(s) && Parses(s, cs)
    ensures Parses(s + "." + "/", cs + ["."])
  {
    ParseEntry(s, ".");
    ParseSlash(s + ".");
    assert Parse(s) == cs;
  }

  /** `s` leads to the directory at hand through the components `cs`, all of one character. */
  ghost predicate Stays(d: Tree, s: string, cs: Path) {
    TakesName(s) && NoNul(s) && Parses(s, cs) && Walk(d, cs, true) == Some([]) && Short(cs, 1)
  }

  lemma StaysOn(d: Tree, s: string, cs: Path)
    requires [] in d && d[[]].Folder? && Stays(d, s, cs)
    ensures Stays(d, s + "." + "/", cs + ["."])
  {
    ParsesDot(s, cs);
    assert (cs + ["."])[..|cs|] == cs;
  }

  /** The directory at hand, `n` times over. */
  lemma {:induction false} Dots(d: Tree, n: nat) returns (s: string, cs: Path)
    requires [] in d && d[[]].Folder?
    ensures |s| == 2 * n && Stays(d, s, cs)
  {
    if n == 0 {
      s, cs := "", [];
      ParseName(s);
    } else {
      s, cs := Dots(d, n - 1);
      StaysOn(d, s, cs);
      s, cs := s + "." + "/", cs + ["."];
    }
  }

  /** A directory whose name fills the buffer, next to a file whose name is one character shorter. */
  lemma CutNameExample() returns (d: Tree, dirName: string, named: Path, shown: Path)
    ensures Sound(d) && NoNul(dirName) && |dirName| == PATH_MAX && named != shown && named in d && shown in d
    ensures Short(Parse(dirName), 2)
    ensures Named(d, dirName) == Some(named) && d[named].Folder?
    ensures Named(d, Cut(dirName)) == Some(shown) && d[shown].File?
  {
    d, named, shown := Neighbours();
    var s, cs := Dots(d, 2047);
    dirName := s + "ab";
    assert Cut(dirName) == s + "a";
    InRoot(d, s, cs, "ab");
    InRoot(d, s, cs, "a");
  }

  lemma Neighbours() returns (d: Tree, p: Path, q: Path)
    ensures Sound(d) && [] in d && d[[]].Folder? && p == ["ab"] && q == ["a"] && p != q
    ensures p in d && q in d && d[p].Folder? && d[q].File?
  {
    p, q := ["ab"], ["a"];
    assert p[0] != q[0] && p != [] && q != [];
    d := map[[] := Folder, p := Folder, q := File];
    forall r ensures SoundAt(d, r) {}
  }

  lemma InRoot(d: Tree, s: string, cs: Path, name: string)
    requires Stays(d, s, cs) && GoodName(name) && !IsDot(name) && |name| <= 2
    requires [] in d && d[[]].Folder? && [name] in d
    ensures Named(d, s + name) == Some([name]) && Short(Parse(s + name), 2)
  {
    assert Parse(s) == cs;
    WalkEntry(d, s, name);
    ParseEntry(s, name);
    assert [] + [name] == [name];
  }

  /** A directory "a" with a file "b" can be deleted under its name. */
  lemma DeletableExample() returns (d: Tree)
    ensures Sound(d) && d.Keys == {[], ["a"], ["a", "b"]} && Deletable(d, "a", ["a"])
  {
    d := map[[] := Folder, ["a"] := Folder, ["a", "b"] := File];
    assert ["a", "b"][..1] == ["a"] && ["a"][..0] == [] && "a"[0] == 'a' && "b"[0] == 'b';
    forall r ensures SoundAt(d, r) {}
    ParseName("a");
    var b := Bare(d, ["a"]);
    assert ["a"][..0] == [] && [] + ["a"] == ["a"];
    assert Walk(b, [], true) == Some([]);
    assert ["a", "b"][1..] == ["b"] && ["b"][1..] == [] && ["a"][1..] == [];
  }
}
