/**
 strbuf_realpath_1 in abspath.c: path components are moved from one buffer to another, and
 symbolic links are put back in their place.
 */
module AbsPath {
  import opened Wrappers

  type Name = string

  datatype Stat = NoEntry | Failure | Dir | File | Link(readable: bool, target: string)

  /** What lstat and readlink say about each path. */
  type FileSystem = string -> Stat

  const MAXSYMLINKS := 32

  // ---------- paths as components ----------

  predicate IsName(c: Name) {
    c != "" && c != "." && c != ".." && forall i | 0 <= i < |c| :: c[i] != '/'
  }

  predicate AreNames(dir: seq<Name>) {
    forall i | 0 <= i < |dir| :: IsName(dir[i])
  }

  /** "/" for the root, and "/a/b" elsewhere. */
  function Render(dir: seq<Name>): string {
    if dir == [] then "/" else if |dir| == 1 then "/" + dir[0] else Render(dir[..|dir| - 1]) + "/" + dir[|dir| - 1]
  }

  function Parent(dir: seq<Name>): seq<Name> {
    if dir == [] then [] else dir[..|dir| - 1]
  }

  function SkipSeparators(s: string): string {
    if s != "" && s[0] == '/' then SkipSeparators(s[1..]) else s
  }

  /** How far the first component of `s` reaches. */
  function NameLength(s: string): (n: nat)
    ensures n <= |s|
  {
    if s == "" || s[0] == '/' then 0 else 1 + NameLength(s[1..])
  }

  lemma {:induction false} SkipShrinks(s: string)
    ensures |SkipSeparators(s)| <= |s|
    ensures s != "" ==> |SkipSeparators(s)| < |s| || NameLength(SkipSeparators(s)) > 0
    ensures SkipSeparators(s) == "" || SkipSeparators(s)[0] != '/'
    ensures exists k :: 0 <= k <= |s| && SkipSeparators(s) == s[k..] && forall i | 0 <= i < k :: s[i] == '/'
  {
    if s != "" && s[0] == '/' {
      SkipShrinks(s[1..]);
      var k :| 0 <= k <= |s[1..]| && SkipSeparators(s[1..]) == s[1..][k..] && forall i | 0 <= i < k :: s[1..][i] == '/';
      assert s[1..][k..] == s[k + 1..];
      forall i | 0 <= i < k + 1 ensures s[i] == '/' {
        if i > 0 {
          assert s[i] == s[1..][i - 1];
        }
      }
    } else {
      assert s[0..] == s;
    }
  }

  /** The components of a path; the last one is empty if the path ends with a separator. */
  function Comps(s: string): seq<Name>
    decreases |s|
  {
    if s == "" then []
    else
      SkipShrinks(s);
      var t := SkipSeparators(s);
      [t[..NameLength(t)]] + Comps(t[NameLength(t)..])
  }

  /** The components without an empty one at the end. */
  function Names(s: string): seq<Name> {
    var cs := Comps(s);
    if cs != [] && cs[|cs| - 1] == "" then cs[..|cs| - 1] else cs
  }

  lemma {:induction false} SkipAppend(t: string, w: string)
    ensures SkipSeparators(t + w) == if SkipSeparators(t) == "" then SkipSeparators(w) else SkipSeparators(t) + w
  {
    if t == "" {
      assert t + w == w;
    } else if t[0] == '/' {
      assert (t + w)[1..] == t[1..] + w;
      SkipAppend(t[1..], w);
    }
  }

  lemma {:induction false} NameLengthAppend(u: string, w: string)
    requires w != "" && w[0] == '/'
    ensures NameLength(u + w) == NameLength(u)
  {
    if u == "" {
      assert u + w == w;
    } else if u[0] != '/' {
      assert (u + w)[1..] == u[1..] + w;
      NameLengthAppend(u[1..], w);
    }
  }

  /** A name reaches up to the next separator. */
  lemma {:induction false} NameIsMaximal(u: string)
    ensures forall i | 0 <= i < NameLength(u) :: u[i] != '/'
    ensures NameLength(u) < |u| ==> u[NameLength(u)] == '/'
  {
    if u != "" && u[0] != '/' {
      NameIsMaximal(u[1..]);
      assert forall i | 1 <= i < NameLength(u) :: u[i] == u[1..][i - 1];
    }
  }

  /** Putting a link's target before what remains puts its components before the others. */
  lemma {:induction false} CompsJoin(t: string, r: string)
    requires r != "" && r[0] == '/'
    ensures Comps(t + "/" + r) == Names(t) + Comps(r)
    decreases |t|
  {
    hide SkipSeparators, NameLength, Comps, Names;
    var w := "/" + r;
    var s := t + w;
    assert t + "/" + r == s;
    SkipAppend(t, w);
    SkipOne(w);
    SkipShrinks(t);
    assert w[1..] == r;
    var u := SkipSeparators(t);
    if u == "" {
      CompsOfSkipped(s, r);
      NamesOfSkipped(t);
    } else {
      var n := NameLength(u);
      NameLengthAppend(u, w);
      assert (u + w)[..n] == u[..n] && (u + w)[n..] == u[n..] + w && u[n..] + w == u[n..] + "/" + r;
      NameStarts(u);
      CompsJoin(u[n..], r);
      NamesStep(t, u, n);
      CompsStep(s, u + w, n);
    }
  }

  lemma SkipOne(w: string)
    requires w != "" && w[0] == '/'
    ensures SkipSeparators(w) == SkipSeparators(w[1..])
  {
  }

  lemma NameStarts(u: string)
    requires u != "" && u[0] != '/'
    ensures NameLength(u) > 0
  {
  }

  lemma CompsStep(s: string, u: string, n: nat)
    requires s != "" && u == SkipSeparators(s) && n == NameLength(u)
    ensures Comps(s) == [u[..n]] + Comps(u[n..])
  {
  }

  /** Leading separators do not matter. */
  lemma CompsOfSkipped(s: string, r: string)
    requires s != "" && r != "" && SkipSeparators(s) == SkipSeparators(r)
    ensures Comps(s) == Comps(r)
  {
  }

  lemma NamesOfSkipped(t: string)
    requires SkipSeparators(t) == ""
    ensures Names(t) == []
  {
  }

  lemma NamesStep(t: string, u: string, n: nat)
    requires t != "" && u == SkipSeparators(t) && u != "" && u[0] != '/' && n == NameLength(u)
    ensures Names(t) == [u[..n]] + Names(u[n..])
  {
    var rest := Comps(u[n..]);
    assert Comps(t) == [u[..n]] + rest;
    assert u[..n] != "";
    if rest != [] {
      assert Comps(t)[|rest|] == rest[|rest| - 1];
    }
  }

  // ---------- what the loop computes, by components ----------

  /** Where a link leads: the directory to go on from, and what its target still asks for. */
  function LinkBase(dir: seq<Name>, target: string): seq<Name> {
    if target != "" && target[0] == '/' then [] else dir
  }

  function LinkRest(target: string): string {
    if target != "" && target[0] == '/' then target[1..] else target
  }

  function Redirected(target: string, rest: seq<Name>): seq<Name> {
    if rest == [] then Comps(LinkRest(target)) else Names(LinkRest(target)) + rest
  }

  /** The walk over the components, following at most `budget` links. */
  function Walk(fs: FileSystem, many: bool, dir: seq<Name>, cs: seq<Name>, budget: nat): Option<seq<Name>>
    decreases budget, |cs|
  {
    if cs == [] then Some(dir)
    else
      var c, rest := cs[0], cs[1..];
      if c == "" || c == "." then Walk(fs, many, dir, rest, budget)
      else if c == ".." then Walk(fs, many, Parent(dir), rest, budget)
      else
        var p := dir + [c];
        match fs(Render(p))
        case NoEntry => if !many && rest != [] then None else Walk(fs, many, p, rest, budget)
        case Failure => None
        case Dir => Walk(fs, many, p, rest, budget)
        case File => Walk(fs, many, p, rest, budget)
        case Link(readable, target) =>
          if budget == 0 || !readable then None
          else Walk(fs, many, LinkBase(dir, target), Redirected(target, rest), budget - 1)
  }

  /** No directory on the way is a link. */
  ghost predicate NoLinks(fs: FileSystem, dir: seq<Name>) {
    forall k | 0 < k <= |dir| :: !fs(Render(dir[..k])).Link?
  }

  ghost predicate Clean(cs: seq<Name>) {
    forall c | c in cs :: forall i | 0 <= i < |c| :: c[i] != '/'
  }

  lemma {:induction false} CompsAreClean(s: string)
    ensures Clean(Comps(s)) && Clean(Names(s))
    decreases |s|
  {
    if s != "" {
      SkipShrinks(s);
      var t := SkipSeparators(s);
      NameIsMaximal(t);
      CompsAreClean(t[NameLength(t)..]);
    }
  }

  /** The result is canonical, and no link is left on the way to it. */
  lemma {:induction false} WalkIsCanonical(fs: FileSystem, many: bool, dir: seq<Name>, cs: seq<Name>, budget: nat)
    requires AreNames(dir) && NoLinks(fs, dir) && Clean(cs)
    ensures var r := Walk(fs, many, dir, cs, budget); r.Some? ==> AreNames(r.value) && NoLinks(fs, r.value)
    decreases budget, |cs|
  {
    hide Comps, Names, Render, NoLinks, IsName, Clean, Redirected, LinkBase, LinkRest;
    if cs != [] {
      var c, rest := cs[0], cs[1..];
      RestIsClean(cs);
      if c == "" || c == "." {
        WalkIsCanonical(fs, many, dir, rest, budget);
      } else if c == ".." {
        ParentIsCanonical(fs, dir);
        WalkIsCanonical(fs, many, Parent(dir), rest, budget);
      } else {
        match fs(Render(dir + [c]))
        case Failure =>
        case Link(readable, target) =>
          if budget > 0 && readable {
            LinkIsCanonical(fs, dir, target, rest);
            WalkIsCanonical(fs, many, LinkBase(dir, target), Redirected(target, rest), budget - 1);
          }
        case _ =>
          ChildIsCanonical(fs, dir, c);
          WalkIsCanonical(fs, many, dir + [c], rest, budget);
      }
    }
  }

  lemma RestIsClean(cs: seq<Name>)
    requires Clean(cs) && cs != []
    ensures Clean(cs[1..]) && (cs[0] != "" && cs[0] != "." && cs[0] != ".." ==> IsName(cs[0]))
  {
    assert cs[0] in cs;
  }

  lemma LinkIsCanonical(fs: FileSystem, dir: seq<Name>, target: string, rest: seq<Name>)
    requires AreNames(dir) && NoLinks(fs, dir) && Clean(rest)
    ensures AreNames(LinkBase(dir, target)) && NoLinks(fs, LinkBase(dir, target)) && Clean(Redirected(target, rest))
  {
    hide Comps, Names, Render, IsName;
    CompsAreClean(LinkRest(target));
  }

  lemma ParentIsCanonical(fs: FileSystem, dir: seq<Name>)
    requires AreNames(dir) && NoLinks(fs, dir)
    ensures AreNames(Parent(dir)) && NoLinks(fs, Parent(dir))
  {
    hide Render, IsName;
    forall k | 0 < k <= |Parent(dir)| ensures !fs(Render(Parent(dir)[..k])).Link? {
      assert Parent(dir)[..k] == dir[..k];
    }
  }

  lemma ChildIsCanonical(fs: FileSystem, dir: seq<Name>, c: Name)
    requires AreNames(dir) && NoLinks(fs, dir) && IsName(c) && !fs(Render(dir + [c])).Link?
    ensures AreNames(dir + [c]) && NoLinks(fs, dir + [c])
  {
    hide Render, IsName;
    var p := dir + [c];
    forall k | 0 < k <= |p| ensures !fs(Render(p[..k])).Link? {
      if k <= |dir| {
        assert p[..k] == dir[..k];
      } else {
        assert p[..k] == p;
      }
    }
  }

  // ---------- POSIX ----------

  predicate IsDir(fs: FileSystem, dir: seq<Name>) {
    dir == [] || fs(Render(dir)).Dir?
  }

  predicate IsAbsolute(path: string) {
    path != "" && path[0] == '/'
  }

  /** Where a pathname leads, and how many links may still be followed. */
  datatype Found = Found(dir: seq<Name>, links: nat)

  /**
   Pathname resolution: every component is looked up in an existing directory. The contents of a link are a
   pathname of their own, looked up from the root if they start with a separator and from the directory that holds
   the link if not, and what remains is looked up from where they lead. Nothing follows the components if `last`;
   the last component of all may be missing if `create`, as for a file that is to be created.
   */
  function Lookup(fs: FileSystem, create: bool, dir: seq<Name>, cs: seq<Name>, budget: nat, last: bool): (r: Option<Found>)
    ensures r.Some? ==> r.value.links <= budget
    decreases budget, |cs|
  {
    if cs == [] then Some(Found(dir, budget))
    else if !IsDir(fs, dir) then None
    else
      var c, rest := cs[0], cs[1..];
      if c == "" || c == "." then Lookup(fs, create, dir, rest, budget, last)
      else if c == ".." then Lookup(fs, create, Parent(dir), rest, budget, last)
      else
        match fs(Render(dir + [c]))
        case NoEntry => if create && last && rest == [] then Some(Found(dir + [c], budget)) else None
        case Failure => None
        case Dir => Lookup(fs, create, dir + [c], rest, budget, last)
        case File => Lookup(fs, create, dir + [c], rest, budget, last)
        case Link(readable, target) =>
          if budget == 0 || !readable || target == "" then None
          else
            match LookupContents(fs, create, dir, target, budget - 1, last && rest == [])
            case None => None
            case Some(f) => Lookup(fs, create, f.dir, rest, f.links, last)
  }

  /** Where the contents of a link in `dir` lead; nothing follows them if `ends`. */
  function LookupContents(fs: FileSystem, create: bool, dir: seq<Name>, target: string, budget: nat, ends: bool): (r: Option<Found>)
    ensures r.Some? ==> r.value.links <= budget
    decreases budget + 1, 0
  {
    if IsAbsolute(target) then Lookup(fs, create, [], Asked(target, ends), budget, ends)
    else Lookup(fs, create, dir, Asked(target, ends), budget, ends)
  }

  lemma LookupStep(fs: FileSystem, create: bool, dir: seq<Name>, cs: seq<Name>, c: Name, rest: seq<Name>, budget: nat, last: bool)
    requires cs == [c] + rest
    ensures Lookup(fs, create, dir, cs, budget, last) ==
      if !IsDir(fs, dir) then None
      else if c == "" || c == "." then Lookup(fs, create, dir, rest, budget, last)
      else if c == ".." then Lookup(fs, create, Parent(dir), rest, budget, last)
      else
        match fs(Render(dir + [c]))
        case NoEntry => if create && last && rest == [] then Some(Found(dir + [c], budget)) else None
        case Failure => None
        case Dir => Lookup(fs, create, dir + [c], rest, budget, last)
        case File => Lookup(fs, create, dir + [c], rest, budget, last)
        case Link(readable, target) =>
          if budget == 0 || !readable || target == "" then None
          else
            var found := LookupContents(fs, create, dir, target, budget - 1, last && rest == []);
            if found.Some? then Lookup(fs, create, found.value.dir, rest, found.value.links, last) else None
  {
    hide Render, Comps, Names, IsDir, Asked;
    assert cs[1..] == rest;
  }

  lemma LookupEnds(fs: FileSystem, create: bool, dir: seq<Name>, budget: nat, last: bool)
    ensures Lookup(fs, create, dir, [], budget, last) == Some(Found(dir, budget))
  {
  }

  /** A separator at the end of a link's contents asks for a directory, which anything that follows does anyway. */
  function Asked(target: string, ends: bool): seq<Name> {
    if ends then Comps(target) else Names(target)
  }

  /** What lstat says, but that files can be entered like directories, missing things too if `many`, and an empty link leads nowhere else. */
  function Lenient(fs: FileSystem, many: bool): FileSystem {
    path =>
      match fs(path)
      case NoEntry => if many then Dir else NoEntry
      case Failure => Failure
      case Dir => Dir
      case File => Dir
      case Link(readable, target) => Link(readable, if target == "" then "." else target)
  }

  ghost predicate AllDirs(fs: FileSystem, dir: seq<Name>) {
    forall k | 0 <= k <= |dir| :: IsDir(fs, dir[..k])
  }

  lemma AllDirsParent(fs: FileSystem, dir: seq<Name>)
    requires AllDirs(fs, dir)
    ensures IsDir(fs, dir) && AllDirs(fs, Parent(dir))
  {
    hide IsDir;
    assert dir[..|dir|] == dir;
    forall k | 0 <= k <= |Parent(dir)| ensures IsDir(fs, Parent(dir)[..k]) {
      assert Parent(dir)[..k] == dir[..k];
    }
  }

  lemma AllDirsChild(fs: FileSystem, dir: seq<Name>, c: Name)
    requires AllDirs(fs, dir) && fs(Render(dir + [c])).Dir?
    ensures AllDirs(fs, dir + [c])
  {
    hide Render;
    forall k | 0 <= k <= |dir| + 1 ensures IsDir(fs, (dir + [c])[..k]) {
      if k <= |dir| {
        assert (dir + [c])[..k] == dir[..k];
      } else {
        assert (dir + [c])[..k] == dir + [c];
      }
    }
  }

  /** Leading separators do not change what is asked for, except of the root. */
  lemma AskedOf(target: string, ends: bool)
    requires target != "" && target != "/"
    ensures Asked(target, ends) == if ends then Comps(LinkRest(target)) else Names(LinkRest(target))
  {
    hide NameLength;
    if target[0] == '/' {
      SkipOne(target);
      CompsOfSkipped(target, target[1..]);
    }
  }

  lemma RootIsAsked(ends: bool)
    ensures Asked("/", ends) == (if ends then [""] else []) && Comps("") == [] && Names("") == []
  {
    SkipOne("/");
    assert "/"[1..] == "";
    assert Comps("/") == [""] + Comps("");
  }

  lemma DotIsAsked(ends: bool)
    ensures Asked(".", ends) == ["."] && Comps("") == [] && Names("") == []
  {
    assert SkipSeparators(".") == "." && NameLength(".") == 1;
    assert Comps(".") == ["."[..1]] + Comps("."[1..]);
    assert "."[..1] == "." && "."[1..] == "";
  }

  /** What remains of a walk after the components that were looked up. */
  function After(fs: FileSystem, many: bool, r: Option<Found>, y: seq<Name>): Option<seq<Name>> {
    if r.Some? then Walk(fs, many, r.value.dir, y, r.value.links) else None
  }

  /** The walk, resolved component by component, is pathname resolution among lenient files, what follows included. */
  lemma {:induction false} WalkInParts(fs: FileSystem, many: bool, dir: seq<Name>, x: seq<Name>, y: seq<Name>, budget: nat)
    requires AllDirs(Lenient(fs, many), dir)
    ensures var r := Lookup(Lenient(fs, many), !many, dir, x, budget, y == []);
      && Walk(fs, many, dir, x + y, budget) == After(fs, many, r, y)
      && (r.Some? ==> AllDirs(Lenient(fs, many), r.value.dir) || y == [])
    decreases budget, |x|, 1
  {
    hide Comps, Names, Render, AllDirs, Asked, Walk, Lookup, LookupContents, Redirected, LinkBase;
    var lenient := Lenient(fs, many);
    AllDirsParent(lenient, dir);
    if x == [] {
      assert x + y == y;
      LookupEnds(lenient, !many, dir, budget, y == []);
    } else {
      var c, rest := x[0], x[1..];
      assert x == [c] + rest && x + y == [c] + (rest + y);
      WalkStep(fs, many, dir, x + y, c, rest + y, budget);
      LookupStep(lenient, !many, dir, x, c, rest, budget, y == []);
      LenientIs(fs, many, Render(dir + [c]));
      hide Lenient, IsDir;
      if c == "" || c == "." {
        WalkInParts(fs, many, dir, rest, y, budget);
      } else if c == ".." {
        WalkInParts(fs, many, Parent(dir), rest, y, budget);
      } else {
        match fs(Render(dir + [c]))
        case NoEntry =>
          if many {
            AllDirsChild(lenient, dir, c);
            WalkInParts(fs, many, dir + [c], rest, y, budget);
          } else if rest == [] && y == [] {
            assert rest + y == y;
          }
        case Failure =>
        case Link(readable, target) =>
          if budget > 0 && readable {
            LinkInParts(fs, many, dir, target, rest, y, budget);
          }
        case File =>
          AllDirsChild(lenient, dir, c);
          WalkInParts(fs, many, dir + [c], rest, y, budget);
        case Dir =>
          AllDirsChild(lenient, dir, c);
          WalkInParts(fs, many, dir + [c], rest, y, budget);
      }
    }
  }

  lemma LinkInParts(fs: FileSystem, many: bool, dir: seq<Name>, target: string, rest: seq<Name>, y: seq<Name>, budget: nat)
    requires AllDirs(Lenient(fs, many), dir) && budget > 0
    ensures var t, lenient := if target == "" then "." else target, Lenient(fs, many);
      var found := LookupContents(lenient, !many, dir, t, budget - 1, y == [] && rest == []);
      var r := if found.Some? then Lookup(lenient, !many, found.value.dir, rest, found.value.links, y == []) else None;
      && Walk(fs, many, LinkBase(dir, target), Redirected(target, rest + y), budget - 1) == After(fs, many, r, y)
      && (r.Some? ==> AllDirs(lenient, r.value.dir) || y == [])
    decreases budget, |rest| + 1, 0
  {
    hide Comps, Names, Render, AllDirs, Asked, Walk, Lookup, LookupContents, Lenient;
    var lenient, base, ends := Lenient(fs, many), LinkBase(dir, target), y == [] && rest == [];
    var contents := if ends then Comps(LinkRest(target)) else Names(LinkRest(target));
    RootIsDir(lenient);
    assert contents + (rest + y) == Redirected(target, rest + y);
    WalkInParts(fs, many, base, contents, rest + y, budget - 1);
    ContentsAsked(lenient, !many, dir, target, budget - 1, ends);
    var found := Lookup(lenient, !many, base, contents, budget - 1, ends);
    if found.Some? {
      if ends {
        assert rest + y == y;
        LookupEnds(lenient, !many, found.value.dir, found.value.links, true);
      } else {
        WalkInParts(fs, many, found.value.dir, rest, y, found.value.links);
      }
    }
  }

  lemma RootIsDir(fs: FileSystem)
    ensures AllDirs(fs, [])
  {
  }

  /** The base and the rest of a link's target ask for the same as its contents do. */
  lemma ContentsAsked(fs: FileSystem, create: bool, dir: seq<Name>, target: string, budget: nat, ends: bool)
    requires AllDirs(fs, dir)
    ensures var t := if target == "" then "." else target;
      Lookup(fs, create, LinkBase(dir, target), if ends then Comps(LinkRest(target)) else Names(LinkRest(target)), budget, ends)
        == LookupContents(fs, create, dir, t, budget, ends)
  {
    hide Comps, Names, Asked, AllDirs;
    AllDirsParent(fs, dir);
    if target == "" {
      DotIsAsked(ends);
      assert ["."][1..] == [];
    } else if target == "/" {
      RootIsAsked(ends);
      assert "/"[1..] == "" && [""][1..] == [];
    } else {
      AskedOf(target, ends);
    }
  }

  /** A path ends in success where pathname resolution among lenient files does, and leads there. */
  lemma WalkIsLookup(fs: FileSystem, many: bool, dir: seq<Name>, cs: seq<Name>, budget: nat)
    requires AllDirs(Lenient(fs, many), dir)
    ensures var r := Lookup(Lenient(fs, many), !many, dir, cs, budget, true);
      Walk(fs, many, dir, cs, budget) == if r.Some? then Some(r.value.dir) else None
  {
    WalkInParts(fs, many, dir, cs, [], budget);
    assert cs + [] == cs;
  }

  lemma LenientIs(fs: FileSystem, many: bool, path: string)
    ensures var s := Lenient(fs, many)(path);
      match fs(path)
      case NoEntry => s == if many then Dir else NoEntry
      case Failure => s == Failure
      case Dir => s == Dir
      case File => s == Dir
      case Link(readable, target) => s == Link(readable, if target == "" then "." else target)
  {
  }

  /** What pathname resolution finds among the files themselves, it also finds among lenient ones. */
  lemma {:induction false} LookupIsLenient(fs: FileSystem, many: bool, dir: seq<Name>, cs: seq<Name>, budget: nat, last: bool)
    ensures var r := Lookup(fs, false, dir, cs, budget, last); r.Some? ==> Lookup(Lenient(fs, many), !many, dir, cs, budget, last) == r
    decreases budget, |cs|
  {
    hide Comps, Names, Render, Asked, Lookup, LookupContents;
    var lenient := Lenient(fs, many);
    if cs == [] {
      LookupEnds(fs, false, dir, budget, last);
      LookupEnds(lenient, !many, dir, budget, last);
    } else {
      var c, rest := cs[0], cs[1..];
      assert cs == [c] + rest;
      LookupStep(fs, false, dir, cs, c, rest, budget, last);
      LookupStep(lenient, !many, dir, cs, c, rest, budget, last);
      assert IsDir(fs, dir) ==> IsDir(lenient, dir);
      LenientIs(fs, many, Render(dir + [c]));
      hide IsDir, Lenient;
      if c == "" || c == "." {
        LookupIsLenient(fs, many, dir, rest, budget, last);
      } else if c == ".." {
        LookupIsLenient(fs, many, Parent(dir), rest, budget, last);
      } else {
        match fs(Render(dir + [c]))
        case NoEntry =>
        case Failure =>
        case Link(readable, target) =>
          if budget > 0 && readable && target != "" {
            ContentsAreLenient(fs, many, dir, target, budget - 1, last && rest == []);
            var f := LookupContents(fs, false, dir, target, budget - 1, last && rest == []);
            if f.Some? {
              LookupIsLenient(fs, many, f.value.dir, rest, f.value.links, last);
            }
          }
        case Dir =>
          LookupIsLenient(fs, many, dir + [c], rest, budget, last);
        case File =>
          LookupIsLenient(fs, many, dir + [c], rest, budget, last);
      }
    }
  }

  lemma ContentsAreLenient(fs: FileSystem, many: bool, dir: seq<Name>, target: string, budget: nat, ends: bool)
    ensures var r := LookupContents(fs, false, dir, target, budget, ends);
      r.Some? ==> LookupContents(Lenient(fs, many), !many, dir, target, budget, ends) == r
    decreases budget + 1, 0
  {
    hide Comps, Names, Asked, Lookup, Lenient;
    LookupIsLenient(fs, many, if IsAbsolute(target) then [] else dir, Asked(target, ends), budget, ends);
  }

  /** Where pathname resolution succeeds, the walk names the same file. */
  lemma WalkAgreesWithPosix(fs: FileSystem, many: bool, dir: seq<Name>, cs: seq<Name>, budget: nat)
    requires AllDirs(fs, dir)
    ensures var r := Lookup(fs, false, dir, cs, budget, true); r.Some? ==> Walk(fs, many, dir, cs, budget) == Some(r.value.dir)
  {
    hide Lookup, Walk, Render;
    assert AllDirs(Lenient(fs, many), dir);
    LookupIsLenient(fs, many, dir, cs, budget, true);
    WalkIsLookup(fs, many, dir, cs, budget);
  }

  /** The walk also goes back from a file, which pathname resolution does not. */
  lemma WalkLeavesFiles(fs: FileSystem, many: bool, budget: nat)
    requires fs("/f").File?
    ensures Walk(fs, many, [], ["f", ".."], budget) == Some([]) && Lookup(fs, false, [], ["f", ".."], budget, true) == None
  {
    var cs: seq<Name> := ["f", ".."];
    assert cs[1..] == [".."];
    assert [] + ["f"] == ["f"] && Render(["f"]) == "/f";
    assert Walk(fs, many, ["f"], [".."], budget) == Walk(fs, many, [], [], budget);
    assert Lookup(fs, false, ["f"], [".."], budget, true) == None;
  }

  /** A link leads where its contents lead: from the directory that holds it, or from the root if they start with a separator. */
  lemma LinkLeads(fs: FileSystem, many: bool, dir: seq<Name>, c: Name, target: string, budget: nat)
    requires IsName(c) && fs(Render(dir + [c])) == Link(true, target) && budget > 0
    ensures Walk(fs, many, dir, [c], budget) ==
      if target != "" && target[0] == '/' then Walk(fs, many, [], Comps(target[1..]), budget - 1)
      else Walk(fs, many, dir, Comps(target), budget - 1)
  {
    assert [c][1..] == [];
  }

  /** What is read off a path: names with separators between, and an empty component for one at the end. */
  lemma CompsLaws(x: string, r: string)
    requires x != "" && forall i | 0 <= i < |x| :: x[i] != '/'
    ensures Comps("") == [] && Comps("/") == [""] && Comps(x) == [x]
    ensures Comps(x + "/" + r) == [x] + Comps("/" + r)
    ensures r != "" ==> Comps("/" + r) == Comps(r)
  {
    hide SkipSeparators, NameLength;
    RootIsAsked(true);
    Unskipped(x);
    NameIsMaximal(x);
    NameLengthOf(x, "");
    assert x + "" == x && x[|x|..] == "" && x[..|x|] == x;
    var s := x + "/" + r;
    assert s == x + ("/" + r) && s[..|x|] == x && s[|x|..] == "/" + r;
    Unskipped(s);
    NameLengthOf(x, "/" + r);
    if r != "" {
      SkipOne("/" + r);
      assert ("/" + r)[1..] == r;
      CompsOfSkipped("/" + r, r);
    }
  }

  lemma {:induction false} NameLengthOf(x: string, r: string)
    requires (forall i | 0 <= i < |x| :: x[i] != '/') && (r == "" || r[0] == '/')
    ensures NameLength(x + r) == |x|
  {
    if x == "" {
      assert x + r == r;
    } else {
      assert (x + r)[1..] == x[1..] + r;
      NameLengthOf(x[1..], r);
    }
  }

  /** A canonical path is made of the names it was rendered from. */
  lemma {:induction false} RenderedComps(dir: seq<Name>, r: string)
    requires AreNames(dir) && dir != [] && (r == "" || r[0] == '/')
    ensures Comps(Render(dir) + r) == dir + Comps(r)
  {
    hide Comps, IsName;
    var last := dir[|dir| - 1];
    assert IsName(last);
    NameThen(last, r);
    if |dir| == 1 {
      assert Render(dir) + r == "/" + (last + r);
      assert dir + Comps(r) == [last] + Comps(r);
    } else {
      var front := dir[..|dir| - 1];
      RenderedComps(front, "/" + (last + r));
      assert Render(dir) + r == Render(front) + ("/" + (last + r));
      assert front + ([last] + Comps(r)) == dir + Comps(r);
    }
  }

  lemma NameThen(x: Name, r: string)
    requires IsName(x) && (r == "" || r[0] == '/')
    ensures Comps("/" + (x + r)) == [x] + Comps(r)
  {
    hide SkipSeparators, NameLength;
    CompsLaws(x, x + r);
    NameLengthOf(x, r);
    Unskipped(x + r);
    assert (x + r)[..|x|] == x && (x + r)[|x|..] == r;
  }

  /** Resolving a result again changes nothing. */
  lemma {:induction false} WalkIsIdempotent(fs: FileSystem, dir: seq<Name>, rest: seq<Name>, budget: nat)
    requires AreNames(dir + rest) && NoLinks(fs, dir + rest)
    requires forall k | 0 < k <= |dir + rest| :: !fs(Render((dir + rest)[..k])).Failure?
    ensures Walk(fs, true, dir, rest, budget) == Some(dir + rest)
    decreases |rest|
  {
    hide Render;
    if rest == [] {
      assert dir + rest == dir;
    } else {
      assert (dir + rest)[|dir|] == rest[0] && (dir + rest)[..|dir| + 1] == dir + [rest[0]];
      assert (dir + [rest[0]]) + rest[1..] == dir + rest;
      WalkIsIdempotent(fs, dir + [rest[0]], rest[1..], budget);
    }
  }

  lemma ResolvedAgain(fs: FileSystem, dir: seq<Name>, budget: nat)
    requires AreNames(dir) && NoLinks(fs, dir) && forall k | 0 < k <= |dir| :: !fs(Render(dir[..k])).Failure?
    ensures Walk(fs, true, [], Comps(LinkRest(Render(dir))), budget) == Some(dir)
  {
    hide Comps, Walk, Render, IsName;
    RenderedEnds(dir);
    var s := Render(dir);
    if dir == [] {
      RootIsAsked(true);
      RootIs();
      assert "/"[1..] == "";
      WalkIsIdempotent(fs, [], [], budget);
    } else {
      RenderedComps(dir, "");
      RootIsAsked(true);
      assert s + "" == s && dir + [] == dir && [] + dir == dir;
      SkipOne(s);
      CompsOfSkipped(s, s[1..]);
      WalkIsIdempotent(fs, [], dir, budget);
    }
  }

  // ---------- the buffers ----------

  /** A rendered path starts with a separator, and ends with one only if it is the root. */
  lemma {:induction false} RenderedEnds(dir: seq<Name>)
    requires AreNames(dir)
    ensures var s := Render(dir);
      s != "" && s[0] == '/' && (s[|s| - 1] == '/' <==> dir == []) && (dir == [] <==> |s| == 1)
    ensures dir != [] ==> Render(dir) == Render(Parent(dir)) + (if |dir| == 1 then "" else "/") + dir[|dir| - 1]
  {
    if dir != [] {
      var last := dir[|dir| - 1];
      assert IsName(last);
      if |dir| > 1 {
        RenderedEnds(dir[..|dir| - 1]);
      }
    }
  }

  /** strip_last_component */
  method StripLastComponent(path: string, ghost dir: seq<Name>) returns (stripped: string)
    requires AreNames(dir) && path == Render(dir)
    ensures stripped == Render(Parent(dir))
  {
    hide Render;
    RenderedEnds(dir);
    RenderedEnds(Parent(dir));
    var offset := if path[0] == '/' then 1 else 0;
    var len := |path|;
    ghost var last := if dir == [] then "" else dir[|dir| - 1];
    assert dir == [] || IsName(last);
    ghost var start := |path| - |last|;
    while offset < len && path[len - 1] != '/'
      invariant offset <= len <= |path| && (dir != [] ==> start <= len)
    {
      assert dir == [] || len > start;
      len := len - 1;
    }
    assert dir != [] ==> forall i | start <= i < |path| :: path[i] == last[i - start];
    ghost var end := |Render(Parent(dir))|;
    assert path[end - 1] == Render(Parent(dir))[end - 1];
    while offset < len && path[len - 1] == '/'
      invariant offset <= len <= |path| && (dir != [] ==> end <= len <= start)
    {
      len := len - 1;
    }
    stripped := path[..len];
  }

  /** get_next_component */
  method GetNextComponent(remaining: string) returns (next: string, rest: string)
    requires remaining != ""
    ensures Comps(remaining) == [next] + Comps(rest) && |rest| < |remaining| && (rest == "" || rest[0] == '/')
  {
    hide Comps, SkipSeparators, NameLength;
    var start := 0;
    SkipShrinks(remaining);
    assert remaining[0..] == remaining;
    while start < |remaining| && remaining[start] == '/'
      invariant 0 <= start <= |remaining| && SkipSeparators(remaining[start..]) == SkipSeparators(remaining)
    {
      SkipOne(remaining[start..]);
      assert remaining[start..][1..] == remaining[start + 1..];
      start := start + 1;
    }
    ghost var t := remaining[start..];
    Unskipped(t);
    var end := start;
    while end < |remaining| && remaining[end] != '/'
      invariant start <= end <= |remaining| && NameLength(t) == end - start + NameLength(remaining[end..])
    {
      NameOne(remaining[end..]);
      assert remaining[end..][1..] == remaining[end + 1..];
      end := end + 1;
    }
    NameNone(remaining[end..]);
    next, rest := remaining[start..end], remaining[end..];
    assert t[..end - start] == next && t[end - start..] == rest;
    CompsStep(remaining, t, end - start);
    assert start > 0 || end > start;
  }

  lemma Unskipped(t: string)
    requires t == "" || t[0] != '/'
    ensures SkipSeparators(t) == t
  {
  }

  lemma NameOne(u: string)
    requires u != "" && u[0] != '/'
    ensures NameLength(u) == 1 + NameLength(u[1..])
  {
  }

  lemma NameNone(u: string)
    requires u == "" || u[0] == '/'
    ensures NameLength(u) == 0
  {
  }

  /** get_root_part */
  method GetRootPart(remaining: string) returns (root: string, rest: string)
    ensures root == (if remaining != "" && remaining[0] == '/' then "/" else "") && rest == LinkRest(remaining)
  {
    var offset := if remaining != "" && remaining[0] == '/' then 1 else 0;
    root, rest := remaining[..offset], remaining[offset..];
  }

  /** Appending a component. */
  method Append(resolved: string, next: Name, ghost dir: seq<Name>) returns (r: string)
    requires AreNames(dir) && resolved == Render(dir) && IsName(next)
    ensures r == Render(dir + [next])
  {
    hide Render;
    RenderedEnds(dir);
    RenderedEnds(dir + [next]);
    assert Parent(dir + [next]) == dir;
    r := resolved;
    if r[|r| - 1] != '/' {
      r := r + "/";
    }
    r := r + next;
  }

  /** What the loop does with a link: its target goes in front of what remains. */
  method FollowLink(resolved0: string, remaining0: string, target: string, ghost dir: seq<Name>, ghost next: Name)
    returns (resolved: string, remaining: string)
    requires AreNames(dir) && IsName(next) && resolved0 == Render(dir + [next]) && (remaining0 == "" || remaining0[0] == '/')
    ensures resolved == Render(LinkBase(dir, target)) && Comps(remaining) == Redirected(target, Comps(remaining0))
  {
    hide Render, Comps, Names;
    resolved := resolved0;
    var symlink := target;
    if symlink != "" && symlink[0] == '/' {
      resolved, symlink := GetRootPart(symlink);
      RootIs();
    } else {
      assert Parent(dir + [next]) == dir;
      resolved := StripLastComponent(resolved, dir + [next]);
    }
    NoComps(remaining0);
    if |remaining0| > 0 {
      CompsJoin(symlink, remaining0);
      symlink := symlink + "/" + remaining0;
    }
    remaining := symlink;
  }

  /** What the loop does with a name: the steps that it takes from there are those of the walk. */
  method EnterName(fs: FileSystem, many: bool, resolved0: string, next: Name, remaining0: string, num: nat, ghost dir0: seq<Name>)
    returns (ok: bool, resolved: string, remaining: string, numSymlinks: nat, ghost dir: seq<Name>)
    requires AreNames(dir0) && resolved0 == Render(dir0) && IsName(next) && (remaining0 == "" || remaining0[0] == '/')
    requires num <= MAXSYMLINKS + 1
    ensures num <= numSymlinks <= MAXSYMLINKS + 1 && (numSymlinks == num ==> remaining == remaining0)
    ensures var r := Walk(fs, many, dir0, [next] + Comps(remaining0), MAXSYMLINKS + 1 - num);
      if ok then AreNames(dir) && resolved == Render(dir) && r == Walk(fs, many, dir, Comps(remaining), MAXSYMLINKS + 1 - numSymlinks)
      else r == None
  {
    hide Render, Comps, Walk, Names, Redirected;
    NoComps(remaining0);
    WalkStep(fs, many, dir0, [next] + Comps(remaining0), next, Comps(remaining0), MAXSYMLINKS + 1 - num);
    ok, remaining, numSymlinks, dir := true, remaining0, num, dir0;
    resolved := Append(resolved0, next, dir0);
    match fs(resolved)
    case NoEntry =>
      if !many && |remaining| > 0 {
        ok := false;
      }
      dir := dir + [next];
    case Failure =>
      ok := false;
    case Dir =>
      dir := dir + [next];
    case File =>
      dir := dir + [next];
    case Link(readable, target) =>
      if numSymlinks > MAXSYMLINKS {
        ok := false;
        return;
      }
      numSymlinks := numSymlinks + 1;
      if !readable {
        ok := false;
        return;
      }
      resolved, remaining := FollowLink(resolved, remaining, target, dir, next);
      dir := LinkBase(dir, target);
  }

  /**
   strbuf_realpath_1: it ends on every file system, and computes the walk; the current directory, if it
   is known, is `cwd`. At most one link more than MAXSYMLINKS is followed.
   */
  method RealPath(path: string, cwd: Option<string>, fs: FileSystem, many: bool, ghost cwdDir: seq<Name>) returns (ok: bool, resolved: string)
    requires cwd.Some? ==> AreNames(cwdDir) && NoLinks(fs, cwdDir) && cwd.value == Render(cwdDir)
    ensures var absolute := path != "" && path[0] == '/';
      if path == "" || (!absolute && cwd.None?) then !ok
      else
        var r := Walk(fs, many, if absolute then [] else cwdDir, Comps(LinkRest(path)), MAXSYMLINKS + 1);
        && ok == r.Some? && (ok ==> resolved == Render(r.value) && AreNames(r.value) && NoLinks(fs, r.value))
    ensures !ok ==> resolved == ""
  {
    hide Render, Comps, Walk, Names, NoLinks, Redirected, Clean;
    if path == "" {
      return false, "";
    }
    var remaining;
    resolved, remaining := GetRootPart(path);
    ghost var dir: seq<Name> := [];
    if resolved == "" {
      if cwd.None? {
        return false, "";
      }
      resolved := cwd.value;
      dir := cwdDir;
    } else {
      AtRoot(fs);
    }
    CompsAreClean(LinkRest(path));
    ghost var r := Walk(fs, many, dir, Comps(remaining), MAXSYMLINKS + 1);
    WalkIsCanonical(fs, many, dir, Comps(remaining), MAXSYMLINKS + 1);
    var numSymlinks: nat := 0;
    while |remaining| > 0
      invariant numSymlinks <= MAXSYMLINKS + 1
      invariant AreNames(dir) && resolved == Render(dir)
      invariant r == Walk(fs, many, dir, Comps(remaining), MAXSYMLINKS + 1 - numSymlinks)
      decreases MAXSYMLINKS + 1 - numSymlinks, |remaining|
    {
      ghost var cs := Comps(remaining);
      CompsAreClean(remaining);
      var next;
      next, remaining := GetNextComponent(remaining);
      NoComps(remaining);
      WalkStep(fs, many, dir, cs, next, Comps(remaining), MAXSYMLINKS + 1 - numSymlinks);
      if next == "" || next == "." {
        continue;
      } else if next == ".." {
        resolved := StripLastComponent(resolved, dir);
        dir := Parent(dir);
        continue;
      }
      NextIsName(cs, next);
      ok, resolved, remaining, numSymlinks, dir := EnterName(fs, many, resolved, next, remaining, numSymlinks, dir);
      if !ok {
        return false, "";
      }
    }
    NoComps(remaining);
    WalkEnds(fs, many, dir, MAXSYMLINKS + 1 - numSymlinks);
    ok := true;
  }

  lemma NextIsName(cs: seq<Name>, next: Name)
    requires Clean(cs) && cs != [] && cs[0] == next && next != "" && next != "." && next != ".."
    ensures IsName(next)
  {
  }

  lemma RootIs()
    ensures Render([]) == "/"
  {
  }

  lemma AtRoot(fs: FileSystem)
    ensures Render([]) == "/" && NoLinks(fs, [])
  {
  }

  lemma NoComps(s: string)
    ensures Comps(s) == [] <==> s == ""
  {
  }

  lemma WalkEnds(fs: FileSystem, many: bool, dir: seq<Name>, budget: nat)
    ensures Walk(fs, many, dir, [], budget) == Some(dir)
  {
  }

  /** One step of the walk. */
  lemma WalkStep(fs: FileSystem, many: bool, dir: seq<Name>, cs: seq<Name>, c: Name, rest: seq<Name>, budget: nat)
    requires cs == [c] + rest
    ensures Walk(fs, many, dir, cs, budget) ==
      if c == "" || c == "." then Walk(fs, many, dir, rest, budget)
      else if c == ".." then Walk(fs, many, Parent(dir), rest, budget)
      else
        match fs(Render(dir + [c]))
        case NoEntry => if !many && rest != [] then None else Walk(fs, many, dir + [c], rest, budget)
        case Failure => None
        case Dir => Walk(fs, many, dir + [c], rest, budget)
        case File => Walk(fs, many, dir + [c], rest, budget)
        case Link(readable, target) =>
          if budget == 0 || !readable then None
          else Walk(fs, many, LinkBase(dir, target), Redirected(target, rest), budget - 1)
  {
    hide Render, Comps, Names;
    assert cs[1..] == rest;
  }
}
