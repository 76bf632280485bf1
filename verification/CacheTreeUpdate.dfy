/**
 Keeping the cache tree of cache-tree.c up to date: invalidating the directories of a path, and
 computing the nodes that are not valid, which gives what computing all of them would give.
 */
module CacheTreeUpdate {
  import opened CacheTree

  datatype Entry = Entry(name: string, mode: nat, oid: Oid, intentToAdd: bool)

  /** An entry of a tree object. */
  datatype Item = Item(mode: nat, name: string, oid: Oid)

  type Hash = seq<Item> -> Oid

  const S_IFDIR: nat := 0x4000

  // ---------- the index ----------

  /** The order of the index. */
  predicate Less(a: string, b: string) {
    b != "" && (a == "" || a[0] < b[0] || (a[0] == b[0] && Less(a[1..], b[1..])))
  }

  /** Is the name that of an entry in directory `p`, which ends with a slash, or anywhere below it? */
  predicate Below(name: string, p: string) {
    |p| < |name| && name[..|p|] == p
  }

  /** Names are in order, and none ends with a slash. */
  ghost predicate IndexOk(idx: seq<Entry>) {
    && (forall i, j | 0 <= i < j < |idx| :: Less(idx[i].name, idx[j].name))
    && forall i | 0 <= i < |idx| :: idx[i].name != "" && idx[i].name[|idx[i].name| - 1] != '/'
  }

  /** The entries of a directory stand next to each other. */
  lemma {:induction false} Between(a: string, b: string, c: string, p: string)
    requires Less(a, b) && Less(b, c) && Below(a, p) && Below(c, p)
    ensures Below(b, p)
  {
    if p != "" {
      assert a[0] == a[..|p|][0] == p[0] && c[0] == c[..|p|][0] == p[0];
      assert a[1..][..|p| - 1] == a[..|p|][1..] && c[1..][..|p| - 1] == c[..|p|][1..];
      Between(a[1..], b[1..], c[1..], p[1..]);
      assert b[..|p|] == [b[0]] + b[1..][..|p| - 1] && p == [p[0]] + p[1..];
    }
  }

  /** The entries below a directory. */
  ghost function Under(idx: seq<Entry>, p: string): (r: seq<Entry>)
    ensures forall i | 0 <= i < |r| :: Below(r[i].name, p)
  {
    if idx == [] then []
    else
      var last := |idx| - 1;
      Under(idx[..last], p) + if Below(idx[last].name, p) then [idx[last]] else []
  }

  /** The first slash at or after `from`, or the length of the name. */
  function Slash(name: string, from: nat): (s: nat)
    requires from <= |name|
    ensures from <= s <= |name| && (s < |name| ==> name[s] == '/') && forall i | from <= i < s :: name[i] != '/'
    decreases |name| - from
  {
    if from == |name| || name[from] == '/' then from else Slash(name, from + 1)
  }

  /** Is the entry in a subdirectory of `base`? */
  predicate InSubdir(name: string, base: string)
    requires |base| <= |name|
  {
    Slash(name, |base|) < |name|
  }

  /** The subdirectory it is in. */
  function Subdir(name: string, base: string): string
    requires |base| <= |name|
  {
    name[|base|..Slash(name, |base|)]
  }

  predicate NoSlash(c: string) {
    forall i | 0 <= i < |c| :: c[i] != '/'
  }

  function Join(base: string, c: string): string {
    base + c + "/"
  }

  lemma SlashIs(name: string, from: nat, s: nat)
    requires from <= s <= |name| && (s < |name| ==> name[s] == '/') && forall i | from <= i < s :: name[i] != '/'
    ensures Slash(name, from) == s
    decreases s - from
  {
    if from < s {
      SlashIs(name, from + 1, s);
    }
  }

  /** An entry is below a subdirectory exactly when that is the subdirectory it is in. */
  lemma BelowSubdir(name: string, base: string, c: string)
    requires Below(name, base) && NoSlash(c)
    ensures Below(name, Join(base, c)) ==> InSubdir(name, base) && Subdir(name, base) == c
    ensures InSubdir(name, base) && Subdir(name, base) == c && name[|name| - 1] != '/' ==> Below(name, Join(base, c))
  {
    var p := Join(base, c);
    if Below(name, p) {
      assert name[|base| + |c|] == name[..|p|][|base| + |c|] == '/';
      assert forall i | |base| <= i < |base| + |c| :: name[i] == name[..|p|][i] == c[i - |base|];
      SlashIs(name, |base|, |base| + |c|);
      assert name[|base|..|base| + |c|] == name[..|p|][|base|..|base| + |c|] == c;
    }
    if InSubdir(name, base) && Subdir(name, base) == c && name[|name| - 1] != '/' {
      var s := Slash(name, |base|);
      assert name[..s + 1] == name[..|base|] + name[|base|..s] + [name[s]];
    }
  }

  lemma BelowParent(name: string, base: string, c: string)
    requires Below(name, Join(base, c))
    ensures Below(name, base)
  {
    assert name[..|base|] == name[..|Join(base, c)|][..|base|];
  }

  // ---------- what the nodes should be ----------

  ghost predicate HasIta(r: seq<Entry>) {
    exists i :: 0 <= i < |r| && r[i].intentToAdd
  }

  /** How many entries at the beginning are below `p`. */
  ghost function Run(r: seq<Entry>, p: string): (k: nat)
    ensures k <= |r| && (forall i | 0 <= i < k :: Below(r[i].name, p)) && (k < |r| ==> !Below(r[k].name, p))
  {
    if r == [] || !Below(r[0].name, p) then 0 else 1 + Run(r[1..], p)
  }

  lemma {:induction false} RunIs(r: seq<Entry>, p: string, k: nat)
    requires k <= |r| && (forall i | 0 <= i < k :: Below(r[i].name, p)) && (k < |r| ==> !Below(r[k].name, p))
    ensures Run(r, p) == k
  {
    if k > 0 {
      RunIs(r[1..], p, k - 1);
    }
  }

  /**
   The tree object for entries below `base`: files, and subdirectories by the hash of their own. Entries
   that are only intended are left out, and so are subdirectories in which nothing else is left.
   */
  ghost function Items(hash: Hash, r: seq<Entry>, base: string): seq<Item>
    decreases |r|, if r == [] then 0 else |r[0].name| - |base|
  {
    if r == [] || !Below(r[0].name, base) then []
    else
      var e := r[0];
      var s := Slash(e.name, |base|);
      if s == |e.name| then (if e.intentToAdd then [] else [Item(e.mode, e.name[|base|..], e.oid)]) + Items(hash, r[1..], base)
      else
        var p := Join(base, e.name[|base|..s]);
        var k := Run(r, p);
        if k == 0 then []
        else
          var oid := hash(Items(hash, r[..k], p));
          (if HasIta(r[..k]) && oid == hash([]) then [] else [Item(S_IFDIR, e.name[|base|..s], oid)]) + Items(hash, r[k..], base)
  }

  ghost function NodeOid(hash: Hash, idx: seq<Entry>, base: string): Oid {
    hash(Items(hash, Under(idx, base), base))
  }

  /** The node for directory `base`, with all nodes below it, is as computing it from the index makes it. */
  ghost predicate Exact(hash: Hash, t: DirTree, idx: seq<Entry>, base: string)
    decreases t
  {
    && t.entryCount == (if HasIta(Under(idx, base)) then -1 else |Under(idx, base)|)
    && t.oid == NodeOid(hash, idx, base)
    && SubsSorted(t.down) && Complete(t.down, idx, base)
    && forall i | 0 <= i < |t.down| ::
      NoSlash(t.down[i].name) && Under(idx, Join(base, t.down[i].name)) != [] && Exact(hash, t.down[i].tree, idx, Join(base, t.down[i].name))
  }

  /** There is a subtree for every subdirectory. */
  ghost predicate Complete(down: seq<Sub>, idx: seq<Entry>, base: string) {
    forall j | 0 <= j < |Under(idx, base)| ::
      InSubdir(Under(idx, base)[j].name, base) ==> HasSub(down, Subdir(Under(idx, base)[j].name, base))
  }

  /** Every valid node is exact. */
  ghost predicate Good(hash: Hash, t: DirTree, idx: seq<Entry>, base: string)
    decreases t
  {
    && (t.entryCount >= 0 ==> Exact(hash, t, idx, base)) && SubsSorted(t.down)
    && forall i | 0 <= i < |t.down| :: NoSlash(t.down[i].name) && Good(hash, t.down[i].tree, idx, Join(base, t.down[i].name))
  }

  lemma {:induction false} ExactIsGood(hash: Hash, t: DirTree, idx: seq<Entry>, base: string)
    requires Exact(hash, t, idx, base)
    ensures Good(hash, t, idx, base)
    decreases t
  {
    hide Under, Items, Complete, Join, SubsSorted;
    forall i | 0 <= i < |t.down| ensures Good(hash, t.down[i].tree, idx, Join(base, t.down[i].name)) {
      ExactIsGood(hash, t.down[i].tree, idx, Join(base, t.down[i].name));
    }
  }

  /** There is only one exact tree, so that an update and a full computation agree on every node. */
  lemma {:induction false} ExactIsUnique(hash: Hash, t: DirTree, u: DirTree, idx: seq<Entry>, base: string)
    requires Exact(hash, t, idx, base) && Exact(hash, u, idx, base) && IndexOk(idx)
    ensures t == u
    decreases t
  {
    hide Items, Join, SubsSorted, NameCmp, Complete, NoSlash;
    SubsOfExact(hash, t, u, idx, base);
    SubsOfExact(hash, u, t, idx, base);
    SortedNamesAreUnique(t.down, u.down);
    forall i | 0 <= i < |t.down| ensures t.down[i] == u.down[i] {
      ExactIsUnique(hash, t.down[i].tree, u.down[i].tree, idx, Join(base, t.down[i].name));
    }
    assert t.down == u.down;
  }

  lemma SubsOfExact(hash: Hash, t: DirTree, u: DirTree, idx: seq<Entry>, base: string)
    requires Exact(hash, t, idx, base) && Exact(hash, u, idx, base) && IndexOk(idx)
    ensures forall i | 0 <= i < |t.down| :: HasSub(u.down, t.down[i].name)
  {
    hide Items, SubsSorted, NameCmp, HasSub;
    forall i | 0 <= i < |t.down| ensures HasSub(u.down, t.down[i].name) {
      var c := t.down[i].name;
      SubdirHasEntry(idx, base, c);
    }
  }

  /** A subdirectory with entries is that of some entry of the directory. */
  lemma SubdirHasEntry(idx: seq<Entry>, base: string, c: string)
    requires NoSlash(c) && Under(idx, Join(base, c)) != []
    ensures exists j :: 0 <= j < |Under(idx, base)| && InSubdir(Under(idx, base)[j].name, base) && Subdir(Under(idx, base)[j].name, base) == c
  {
    var e := Under(idx, Join(base, c))[0];
    UnderIsIn(idx, Join(base, c), e);
    BelowParent(e.name, base, c);
    UnderIsIn(idx, base, e);
    BelowSubdir(e.name, base, c);
    var j :| 0 <= j < |Under(idx, base)| && Under(idx, base)[j] == e;
  }

  lemma {:induction false} UnderIsIn(idx: seq<Entry>, p: string, e: Entry)
    ensures e in Under(idx, p) <==> e in idx && Below(e.name, p)
  {
    if idx != [] {
      var last := |idx| - 1;
      UnderIsIn(idx[..last], p, e);
      assert idx == idx[..last] + [idx[last]];
    }
  }

  lemma {:induction false} SortedNamesAreUnique(x: seq<Sub>, y: seq<Sub>)
    requires SubsSorted(x) && SubsSorted(y)
    requires (forall i | 0 <= i < |x| :: HasSub(y, x[i].name)) && (forall i | 0 <= i < |y| :: HasSub(x, y[i].name))
    ensures |x| == |y| && forall i | 0 <= i < |x| :: x[i].name == y[i].name
  {
    hide NameCmp, HasSub, SubsSorted;
    if x == [] || y == [] {
      if x == [] {
        NoSubs(x, y);
      } else {
        NoSubs(y, x);
      }
    } else {
      var m, n := |x| - 1, |y| - 1;
      assert HasSub(y, x[m].name) && HasSub(x, y[n].name);
      LastIsLast(x, y);
      LastIsLast(y, x);
      NameCmpIsOrder(x[m].name, y[n].name, x[m].name);
      WithoutLast(x, y);
      WithoutLast(y, x);
      SortedNamesAreUnique(x[..m], y[..n]);
      assert forall i | 0 <= i < m :: x[i] == x[..m][i] && y[i] == y[..n][i];
    }
  }

  lemma NoSubs(x: seq<Sub>, y: seq<Sub>)
    requires x == [] && forall i | 0 <= i < |y| :: HasSub(x, y[i].name)
    ensures y == []
  {
    assert y != [] ==> HasSub(x, y[0].name);
  }

  /** The last name of one is not after the last name of the other. */
  lemma LastIsLast(x: seq<Sub>, y: seq<Sub>)
    requires SubsSorted(y) && x != [] && y != [] && HasSub(y, x[|x| - 1].name)
    ensures NameCmp(x[|x| - 1].name, y[|y| - 1].name) <= 0
  {
    hide NameCmp;
    var i :| 0 <= i < |y| && y[i].name == x[|x| - 1].name;
    NameCmpIsOrder(y[i].name, y[|y| - 1].name, y[i].name);
  }

  lemma WithoutLast(x: seq<Sub>, y: seq<Sub>)
    requires SubsSorted(x) && x != [] && y != [] && x[|x| - 1].name == y[|y| - 1].name && forall i | 0 <= i < |x| :: HasSub(y, x[i].name)
    ensures var z, w := x[..|x| - 1], y[..|y| - 1]; forall i | 0 <= i < |z| :: HasSub(w, z[i].name)
    ensures SubsSorted(x[..|x| - 1])
  {
    hide NameCmp;
    forall i | 0 <= i < |x| - 1 ensures HasSub(y[..|y| - 1], x[i].name) {
      assert HasSub(y, x[i].name);
      var k :| 0 <= k < |y| && y[k].name == x[i].name;
      NameCmpIsOrder(x[i].name, x[|x| - 1].name, x[i].name);
      assert k < |y| - 1 && y[..|y| - 1][k] == y[k];
    }
  }

  // ---------- invalidation ----------

  ghost function Without(idx: seq<Entry>, x: string): seq<Entry> {
    if idx == [] then []
    else
      var last := |idx| - 1;
      Without(idx[..last], x) + if idx[last].name == x then [] else [idx[last]]
  }

  /** The indexes differ at most in entries with this name. */
  ghost predicate Edit(idx: seq<Entry>, idx2: seq<Entry>, x: string) {
    Without(idx, x) == Without(idx2, x)
  }

  lemma {:induction false} UnderWithout(idx: seq<Entry>, p: string, x: string)
    requires !Below(x, p)
    ensures Under(Without(idx, x), p) == Under(idx, p)
  {
    hide Below;
    if idx != [] {
      var last := |idx| - 1;
      UnderWithout(idx[..last], p, x);
      UnderAppend(Without(idx[..last], x), idx[last], p);
      assert Without(idx[..last], x) + [] == Without(idx[..last], x);
    }
  }

  lemma UnderAppend(w: seq<Entry>, e: Entry, p: string)
    ensures Under(w + [e], p) == Under(w, p) + if Below(e.name, p) then [e] else []
  {
    hide Below;
    assert (w + [e])[..|w|] == w;
  }

  /** Directories that the name is not below keep their entries. */
  lemma SameUnder(idx: seq<Entry>, idx2: seq<Entry>, x: string, p: string)
    requires Edit(idx, idx2, x) && !Below(x, p)
    ensures Under(idx, p) == Under(idx2, p)
  {
    UnderWithout(idx, p, x);
    UnderWithout(idx2, p, x);
  }

  lemma {:induction false} ExactElsewhere(hash: Hash, t: DirTree, idx: seq<Entry>, idx2: seq<Entry>, x: string, p: string)
    requires Edit(idx, idx2, x) && !Below(x, p) && Exact(hash, t, idx, p)
    ensures Exact(hash, t, idx2, p)
    decreases t
  {
    hide Items, SubsSorted, NoSlash, Edit, Under, Below, Join;
    SameUnder(idx, idx2, x, p);
    forall i | 0 <= i < |t.down|
      ensures Under(idx2, Join(p, t.down[i].name)) != [] && Exact(hash, t.down[i].tree, idx2, Join(p, t.down[i].name))
    {
      NotBelowSub(x, p, t.down[i].name);
      SameUnder(idx, idx2, x, Join(p, t.down[i].name));
      ExactElsewhere(hash, t.down[i].tree, idx, idx2, x, Join(p, t.down[i].name));
    }
  }

  lemma NotBelowSub(x: string, p: string, c: string)
    requires !Below(x, p)
    ensures !Below(x, Join(p, c))
  {
    if Below(x, Join(p, c)) {
      BelowParent(x, p, c);
    }
  }

  lemma {:induction false} GoodElsewhere(hash: Hash, t: DirTree, idx: seq<Entry>, idx2: seq<Entry>, x: string, p: string)
    requires Edit(idx, idx2, x) && !Below(x, p) && Good(hash, t, idx, p)
    ensures Good(hash, t, idx2, p)
    decreases t
  {
    hide Items, SubsSorted, NoSlash, Edit, Under, Below, Join, Exact;
    if t.entryCount >= 0 {
      ExactElsewhere(hash, t, idx, idx2, x, p);
    }
    forall i | 0 <= i < |t.down| ensures Good(hash, t.down[i].tree, idx2, Join(p, t.down[i].name)) {
      NotBelowSub(x, p, t.down[i].name);
      GoodElsewhere(hash, t.down[i].tree, idx, idx2, x, Join(p, t.down[i].name));
    }
  }

  lemma IsRemoved(down: seq<Sub>, pos: nat)
    requires pos < |down|
    ensures Removed(down, down[..pos] + down[pos + 1..], down[pos].name)
  {
  }

  lemma NothingRemoved(down: seq<Sub>, c: string)
    requires !HasSub(down, c)
    ensures Removed(down, down, c)
  {
  }

  /** Subtree `c` is gone, and nothing else. */
  ghost predicate Removed(down: seq<Sub>, after: seq<Sub>, c: string) {
    if HasSub(down, c) then exists k | 0 <= k < |down| :: down[k].name == c && after == down[..k] + down[k + 1..]
    else after == down
  }

  /** The nodes of the directories that lead to the path are not valid any more, that of the path is gone, and all others are as they were. */
  ghost predicate OnlyPath(t: DirTree, after: DirTree, path: string)
    decreases |path|
  {
    var n := Slash(path, 0);
    && after.entryCount == -1 && after.oid == t.oid
    && if n == |path| then Removed(t.down, after.down, path)
       else
         && |after.down| == |t.down|
         && forall i | 0 <= i < |t.down| ::
              && after.down[i].name == t.down[i].name
              && if t.down[i].name == path[..n] then OnlyPath(t.down[i].tree, after.down[i].tree, path[n + 1..])
                 else after.down[i].tree == t.down[i].tree
  }

  /** do_invalidate_path: after an edit of the index at the path, every valid node is exact again. */
  method DoInvalidatePath(hash: Hash, it: DirTree, path: string, ghost base: string, ghost idx: seq<Entry>, ghost idx2: seq<Entry>)
    returns (res: DirTree)
    requires Good(hash, it, idx, base) && Edit(idx, idx2, base + path)
    ensures Good(hash, res, idx2, base) && OnlyPath(it, res, path)
    decreases |path|
  {
    hide Items, SubsSorted, Edit, Under, Below, Join, Exact, NameCmp, HasSub, Removed;
    var namelen := Slash(path, 0);
    res := it.(entryCount := -1);
    var pos := SubtreePos(it.down, path[..namelen]);
    if namelen == |path| {
      assert path[..namelen] == path;
      if 0 <= pos {
        res := res.(down := it.down[..pos] + it.down[pos + 1..]);
        RemoveSorted(it.down, pos);
        IsRemoved(it.down, pos);
      } else {
        NothingRemoved(it.down, path);
      }
      forall i | 0 <= i < |res.down| ensures NoSlash(res.down[i].name) && Good(hash, res.down[i].tree, idx2, Join(base, res.down[i].name)) {
        assert res.down[i] in it.down;
        OtherSub(base, path, res.down[i].name);
        GoodElsewhere(hash, res.down[i].tree, idx, idx2, base + path, Join(base, res.down[i].name));
      }
      return;
    }
    if 0 <= pos {
      var rest := path[namelen + 1..];
      PathBelow(base, path, namelen);
      var sub := DoInvalidatePath(hash, it.down[pos].tree, rest, Join(base, it.down[pos].name), idx, idx2);
      res := res.(down := it.down[pos := it.down[pos].(tree := sub)]);
      RenameNone(it.down, pos, sub);
    }
    forall i | 0 <= i < |res.down|
      ensures NoSlash(res.down[i].name) && Good(hash, res.down[i].tree, idx2, Join(base, res.down[i].name))
      ensures i != pos ==> it.down[i].name != path[..namelen]
    {
      if i != pos {
        assert res.down[i] == it.down[i];
        OtherName(it.down, path[..namelen], pos, i);
        OtherSub(base, path, res.down[i].name);
        GoodElsewhere(hash, res.down[i].tree, idx, idx2, base + path, Join(base, res.down[i].name));
      }
    }
  }

  lemma RemoveSorted(down: seq<Sub>, pos: nat)
    requires SubsSorted(down) && pos < |down|
    ensures SubsSorted(down[..pos] + down[pos + 1..])
  {
    hide NameCmp;
    var r := down[..pos] + down[pos + 1..];
    assert forall i | 0 <= i < |r| :: r[i] == down[if i < pos then i else i + 1];
  }

  lemma RenameNone(down: seq<Sub>, pos: nat, t: DirTree)
    requires SubsSorted(down) && pos < |down|
    ensures SubsSorted(down[pos := down[pos].(tree := t)])
  {
    hide NameCmp;
    var r := down[pos := down[pos].(tree := t)];
    assert forall i | 0 <= i < |r| :: r[i].name == down[i].name;
  }

  lemma OtherName(down: seq<Sub>, name: string, pos: int, i: nat)
    requires SubsSorted(down) && i < |down| && i != pos && (pos >= 0 ==> pos < |down| && down[pos].name == name) && (pos < 0 ==> !HasSub(down, name))
    ensures down[i].name != name
  {
    hide NameCmp;
    if pos >= 0 {
      NameCmpIsOrder(down[i].name, name, name);
      NameCmpIsOrder(name, down[i].name, name);
    }
  }

  /** The path is not below a subdirectory other than the one it names first. */
  lemma OtherSub(base: string, path: string, c: string)
    requires NoSlash(c) && (Slash(path, 0) == |path| || path[..Slash(path, 0)] != c)
    ensures !Below(base + path, Join(base, c))
  {
    if Below(base + path, Join(base, c)) {
      StripBase(base, path, c);
      StartsWithName(path, c);
    }
  }

  lemma StripBase(base: string, path: string, c: string)
    requires Below(base + path, Join(base, c))
    ensures |c| + 1 <= |path| && path[..|c| + 1] == c + "/"
  {
    assert (base + path)[..|Join(base, c)|] == base + path[..|c| + 1];
    assert path[..|c| + 1] == (base + path[..|c| + 1])[|base|..] == (base + c + "/")[|base|..] == c + "/";
  }

  lemma StartsWithName(path: string, c: string)
    requires NoSlash(c) && |c| + 1 <= |path| && path[..|c| + 1] == c + "/"
    ensures Slash(path, 0) == |c| && path[..|c|] == c
  {
    assert forall i | 0 <= i < |c| :: path[i] == path[..|c| + 1][i] == c[i];
    assert path[|c|] == path[..|c| + 1][|c|] == '/';
    SlashIs(path, 0, |c|);
  }

  lemma PathBelow(base: string, path: string, namelen: nat)
    requires namelen < |path| && path[namelen] == '/'
    ensures base + path == Join(base, path[..namelen]) + path[namelen + 1..]
  {
    assert path == path[..namelen] + "/" + path[namelen + 1..];
  }

  // ---------- where directories lie in the index ----------

  /** The entries below `p` are the `n` entries from `at` on. */
  ghost predicate Region(idx: seq<Entry>, at: nat, n: nat, p: string) {
    && at + n <= |idx| && Under(idx, p) == idx[at..at + n] && (forall i | at <= i < at + n :: Below(idx[i].name, p))
    && (at > 0 ==> at - 1 < |idx| && !Below(idx[at - 1].name, p)) && (at + n < |idx| ==> !Below(idx[at + n].name, p))
  }

  lemma {:induction false} UnderSlice(idx: seq<Entry>, p: string, j: nat, e: nat)
    requires j <= e <= |idx| && forall i | 0 <= i < |idx| :: Below(idx[i].name, p) <==> j <= i < e
    ensures Under(idx, p) == idx[j..e]
  {
    hide Below, Under;
    if idx == [] {
      UnderNone(p);
    } else {
      var last := |idx| - 1;
      var init := idx[..last];
      UnderLast(idx, p);
      assert forall i | 0 <= i < last :: init[i] == idx[i];
      if e == |idx| && j < e {
        UnderSlice(init, p, j, last);
        assert idx[j..e] == init[j..last] + [idx[last]];
      } else if j == e {
        UnderSlice(init, p, 0, 0);
      } else {
        UnderSlice(init, p, j, e);
        assert idx[j..e] == init[j..e];
      }
    }
  }

  lemma UnderNone(p: string)
    ensures Under([], p) == []
  {
  }

  lemma UnderLast(idx: seq<Entry>, p: string)
    requires idx != []
    ensures var last := |idx| - 1; Under(idx, p) == Under(idx[..last], p) + if Below(idx[last].name, p) then [idx[last]] else []
  {
  }

  lemma RegionOf(idx: seq<Entry>, j: nat, p: string)
    requires IndexOk(idx) && j < |idx| && Below(idx[j].name, p) && (j > 0 ==> !Below(idx[j - 1].name, p))
    ensures Region(idx, j, Run(idx[j..], p), p) && Run(idx[j..], p) > 0
  {
    hide Below, Less, Under;
    var k := Run(idx[j..], p);
    RunSpan(idx, j, p);
    forall i | 0 <= i < |idx| ensures Below(idx[i].name, p) <==> j <= i < j + k {
      if i < j && Below(idx[i].name, p) {
        Between(idx[i].name, idx[j - 1].name, idx[j].name, p);
      }
      if i >= j + k && Below(idx[i].name, p) {
        Between(idx[j].name, idx[j + k].name, idx[i].name, p);
      }
    }
    UnderSlice(idx, p, j, j + k);
  }

  /** The run of entries below `p` from `j` on. */
  lemma RunSpan(idx: seq<Entry>, j: nat, p: string)
    requires j < |idx| && Below(idx[j].name, p)
    ensures var k := Run(idx[j..], p);
      && 0 < k && j + k <= |idx| && (forall i | j <= i < j + k :: Below(idx[i].name, p)) && (j + k < |idx| ==> !Below(idx[j + k].name, p))
  {
    hide Below;
    var rest := idx[j..];
    var k := Run(rest, p);
    assert rest[0] == idx[j];
    forall i | j <= i < j + k ensures Below(idx[i].name, p) {
      assert rest[i - j] == idx[i];
    }
    if j + k < |idx| {
      assert rest[k] == idx[j + k];
    }
  }

  /** No subdirectory of `base` reaches across `k`. */
  ghost predicate Fresh(idx: seq<Entry>, k: nat, base: string) {
    0 < k < |idx| ==> forall c | NoSlash(c) && Below(idx[k].name, Join(base, c)) :: !Below(idx[k - 1].name, Join(base, c))
  }

  lemma FreshAtStart(idx: seq<Entry>, at: nat, n: nat, base: string)
    requires Region(idx, at, n, base)
    ensures Fresh(idx, at, base)
  {
    hide Under, Below, NoSlash;
    if 0 < at < |idx| {
      forall c | NoSlash(c) && Below(idx[at].name, Join(base, c)) ensures !Below(idx[at - 1].name, Join(base, c)) {
        if Below(idx[at - 1].name, Join(base, c)) {
          BelowParent(idx[at - 1].name, base, c);
        }
      }
    }
  }

  /** A file is in no subdirectory. */
  lemma FreshAfterFile(idx: seq<Entry>, k: nat, base: string)
    requires k < |idx| && Below(idx[k].name, base) && !InSubdir(idx[k].name, base)
    ensures Fresh(idx, k + 1, base)
  {
    hide Below;
    forall c | NoSlash(c) ensures !Below(idx[k].name, Join(base, c)) {
      BelowSubdir(idx[k].name, base, c);
    }
  }

  lemma FreshAfterDir(idx: seq<Entry>, k: nat, base: string, c: string)
    requires 0 < k <= |idx| && NoSlash(c) && Below(idx[k - 1].name, Join(base, c)) && (k < |idx| ==> !Below(idx[k].name, Join(base, c)))
    ensures Fresh(idx, k, base)
  {
    hide Below, NoSlash;
    if k < |idx| {
      forall d | NoSlash(d) && Below(idx[k].name, Join(base, d)) ensures !Below(idx[k - 1].name, Join(base, d)) {
        BelowParent(idx[k - 1].name, base, c);
        BelowSubdir(idx[k - 1].name, base, c);
        BelowSubdir(idx[k - 1].name, base, d);
      }
    }
  }

  predicate InDir(name: string, base: string, c: string) {
    |base| <= |name| && InSubdir(name, base) && Subdir(name, base) == c
  }

  /** The subdirectory that starts at entry `i` of a directory. */
  lemma NextRegion(idx: seq<Entry>, at: nat, n: nat, base: string, i: nat, c: string) returns (k: nat)
    requires IndexOk(idx) && Region(idx, at, n, base) && i < n && Fresh(idx, at + i, base)
    requires at + i < |idx| && InDir(idx[at + i].name, base, c)
    ensures NoSlash(c) && Region(idx, at + i, k, Join(base, c)) && 0 < k <= n - i && k == |Under(idx, Join(base, c))|
    ensures Fresh(idx, at + i + k, base) && at + n <= |idx| && k == Run(idx[at + i..at + n], Join(base, c))
    ensures forall j | at + i <= j < at + i + k :: InDir(idx[j].name, base, c)
  {
    hide *;
    var p := Join(base, c);
    RegionEnds(idx, at, n, base);
    StartsSubdir(idx, at + i, base, c);
    RegionOf(idx, at + i, p);
    k := Run(idx[at + i..], p);
    RegionEnds(idx, at + i, k, p);
    forall j | at + i <= j < at + i + k ensures Below(idx[j].name, base) && InDir(idx[j].name, base, c) {
      InRegion(idx[j].name, base, c);
    }
    assert at + n < |idx| ==> !Below(idx[at + n].name, base);
    FreshAfterDir(idx, at + i + k, base, c);
    RunWithin(idx, at + i, at + n, p, k);
  }

  lemma RegionEnds(idx: seq<Entry>, at: nat, n: nat, p: string)
    requires Region(idx, at, n, p)
    ensures at + n <= |idx| && n == |Under(idx, p)| && (forall i | at <= i < at + n :: Below(idx[i].name, p))
    ensures at + n < |idx| ==> !Below(idx[at + n].name, p)
  {
    hide Under, Below;
  }

  lemma StartsSubdir(idx: seq<Entry>, k: nat, base: string, c: string)
    requires IndexOk(idx) && k < |idx| && Fresh(idx, k, base) && Below(idx[k].name, base) && InDir(idx[k].name, base, c)
    ensures NoSlash(c) && Below(idx[k].name, Join(base, c)) && (k > 0 ==> !Below(idx[k - 1].name, Join(base, c)))
  {
    hide Less, Below, InSubdir;
    SubdirName(idx[k].name, base);
    BelowSubdir(idx[k].name, base, c);
  }

  lemma InRegion(name: string, base: string, c: string)
    requires Below(name, Join(base, c)) && NoSlash(c)
    ensures Below(name, base) && InDir(name, base, c)
  {
    hide NoSlash;
    BelowParent(name, base, c);
    BelowSubdir(name, base, c);
  }

  lemma SubdirName(name: string, base: string)
    requires |base| <= |name|
    ensures NoSlash(Subdir(name, base))
  {
  }

  lemma RunWithin(idx: seq<Entry>, j: nat, e: nat, p: string, k: nat)
    requires j + k <= e <= |idx| && (forall i | j <= i < j + k :: Below(idx[i].name, p)) && (j + k < |idx| ==> !Below(idx[j + k].name, p))
    ensures Run(idx[j..e], p) == k
  {
    hide Below;
    var r := idx[j..e];
    assert forall i | 0 <= i < |r| :: r[i] == idx[j + i];
    RunIs(r, p, k);
  }

  // ---------- update ----------

  /** Which objects are there, and which entries name one that is not. */
  datatype Store = Store(hash: Hash, has: Oid -> bool, missing: (nat, Oid) -> bool)

  /** Subtrees of directories that have been updated are exact; the others are good. */
  ghost predicate SubsOk(hash: Hash, down: seq<Sub>, idx: seq<Entry>, base: string, used: set<string>) {
    && SubsSorted(down) && (forall c | c in used :: HasSub(down, c))
    && forall i | 0 <= i < |down| :: SubOk(hash, down[i], idx, base, down[i].name in used)
  }

  ghost predicate SubOk(hash: Hash, s: Sub, idx: seq<Entry>, base: string, used: bool) {
    && NoSlash(s.name)
    && if used then Under(idx, Join(base, s.name)) != [] && Exact(hash, s.tree, idx, Join(base, s.name))
      else Good(hash, s.tree, idx, Join(base, s.name))
  }

  /** The counts that the next loop uses. */
  ghost predicate CountsOk(count: map<string, nat>, idx: seq<Entry>, base: string, used: set<string>) {
    count.Keys == used && forall c | c in used :: count[c] == |Under(idx, Join(base, c))|
  }

  /** The subdirectories of the first `i` entries have been updated. */
  ghost predicate Covered(idx: seq<Entry>, at: nat, i: nat, base: string, used: set<string>) {
    at + i <= |idx| && forall j | at <= j < at + i :: CoveredAt(idx[j].name, base, used)
  }

  ghost predicate CoveredAt(name: string, base: string, used: set<string>) {
    |base| <= |name| && (InSubdir(name, base) ==> Subdir(name, base) in used)
  }

  predicate Bad(store: Store, mode: nat, oid: Oid) {
    oid == NULL_OID || store.missing(mode, oid)
  }

  /** Every object that a tree can name is there. */
  ghost predicate Healthy(store: Store, idx: seq<Entry>) {
    && (forall e | e in idx :: !Bad(store, e.mode, e.oid))
    && forall items: seq<Item> :: !Bad(store, S_IFDIR, store.hash(items))
  }

  lemma GrownIsGood(hash: Hash, down: seq<Sub>, grown: seq<Sub>, pos: nat, c: string, idx: seq<Entry>, base: string, used: set<string>)
    requires SubsOk(hash, down, idx, base, used) && NoSlash(c) && pos < |grown| && SubsSorted(grown) && grown[pos].name == c
    requires HasSub(down, c) ==> grown == down
    requires !HasSub(down, c) ==> pos <= |down| && grown == Inserted(down, pos, Sub(c, EMPTY_TREE))
    ensures Good(hash, grown[pos].tree, idx, Join(base, c))
    ensures forall i | 0 <= i < |grown| && i != pos :: grown[i] in down
    ensures forall s | s in down && s.name != c :: s in grown
  {
    hide Under, Exact, SubsSorted, Join, NoSlash, NameCmp;
    if HasSub(down, c) {
      if c in used {
        ExactIsGood(hash, grown[pos].tree, idx, Join(base, c));
      }
    } else {
      assert SubsSorted([]) by {
        NoSubsSorted();
      }
    }
  }

  lemma NoSubsSorted()
    ensures SubsSorted([])
  {
  }

  lemma SubUpdated(hash: Hash, down: seq<Sub>, grown: seq<Sub>, pos: nat, c: string, idx: seq<Entry>, base: string, used: set<string>, sub: DirTree)
    requires SubsOk(hash, down, idx, base, used) && NoSlash(c) && pos < |grown| && SubsSorted(grown) && grown[pos].name == c
    requires forall i | 0 <= i < |grown| && i != pos :: grown[i] in down
    requires forall s | s in down && s.name != c :: s in grown
    requires Under(idx, Join(base, c)) != [] && Exact(hash, sub, idx, Join(base, c))
    ensures SubsOk(hash, grown[pos := grown[pos].(tree := sub)], idx, base, used + {c})
  {
    hide Under, Exact, Join, NoSlash, NameCmp, SubsSorted, Good;
    var r := grown[pos := grown[pos].(tree := sub)];
    RenameNone(grown, pos, sub);
    forall i | 0 <= i < |r| ensures SubOk(hash, r[i], idx, base, r[i].name in used + {c}) {
      if i != pos {
        OtherNames(grown, pos, i);
        assert r[i] in down;
      }
    }
    forall d | d in used + {c} ensures HasSub(r, d) {
      if d == c {
        assert r[pos].name == c;
      } else {
        var j :| 0 <= j < |down| && down[j].name == d;
        assert down[j] in grown;
        var k :| 0 <= k < |grown| && grown[k] == down[j];
        assert r[k].name == d;
      }
    }
  }

  lemma OtherNames(down: seq<Sub>, pos: nat, i: nat)
    requires SubsSorted(down) && pos < |down| && i < |down| && i != pos
    ensures down[i].name != down[pos].name
  {
    hide NameCmp;
    NameCmpIsOrder(down[i].name, down[pos].name, down[i].name);
  }

  lemma ValidIsExact(hash: Hash, t: DirTree, idx: seq<Entry>, base: string)
    requires Good(hash, t, idx, base) && t.entryCount >= 0
    ensures Exact(hash, t, idx, base) && t.entryCount == |Under(idx, base)|
  {
    hide Under, Items, Join, SubsSorted;
  }

  lemma GoodSubs(hash: Hash, t: DirTree, idx: seq<Entry>, base: string)
    requires Good(hash, t, idx, base)
    ensures SubsOk(hash, t.down, idx, base, {})
  {
    hide Under, Exact, Join, SubsSorted, NoSlash;
  }

  lemma MoreCovered(idx: seq<Entry>, at: nat, i: nat, k: nat, base: string, used: set<string>, used2: set<string>)
    requires Covered(idx, at, i, base, used) && used <= used2 && at + i + k <= |idx|
    requires forall j | at + i <= j < at + i + k :: CoveredAt(idx[j].name, base, used2)
    ensures Covered(idx, at, i + k, base, used2)
  {
    hide InSubdir;
    forall j | at <= j < at + i ensures CoveredAt(idx[j].name, base, used2) {
      assert CoveredAt(idx[j].name, base, used);
    }
  }

  lemma NothingCovered(idx: seq<Entry>, at: nat, base: string)
    requires at <= |idx|
    ensures Covered(idx, at, 0, base, {}) && CountsOk(map[], idx, base, {})
  {
  }

  lemma BelowIs(name: string, base: string)
    ensures Below(name, base) <==> |base| < |name| && name[..|base|] == base
  {
  }

  lemma FileIs(name: string, base: string, used: set<string>)
    requires |base| <= |name| && Slash(name, |base|) == |name|
    ensures !InSubdir(name, base) && CoveredAt(name, base, used)
  {
  }

  lemma DirIs(name: string, base: string)
    requires |base| <= |name| && Slash(name, |base|) < |name|
    ensures InDir(name, base, name[|base|..Slash(name, |base|)])
  {
  }

  lemma SubsAreSorted(hash: Hash, down: seq<Sub>, idx: seq<Entry>, base: string, used: set<string>)
    requires SubsOk(hash, down, idx, base, used)
    ensures SubsSorted(down)
  {
  }

  lemma GrowthIs(down: seq<Sub>, grown: seq<Sub>, pos: nat, c: string)
    requires !HasSub(down, c) ==> BelongsAt(down, c, pos)
    ensures !HasSub(down, c) ==> pos <= |down|
  {
  }

  /** A subdirectory's name is longer, so that the recursion ends. */
  lemma NameLonger(idx: seq<Entry>, j: nat, k: nat, base: string, c: string)
    requires Region(idx, j, k, Join(base, c)) && k > 0
    ensures j < |idx| && |base| < |Join(base, c)| < |idx[j].name| && Join(base, c) == base + c + "/"
  {
    hide Under;
  }

  lemma OneMoreCount(count: map<string, nat>, idx: seq<Entry>, base: string, used: set<string>, c: string, n: nat)
    requires CountsOk(count, idx, base, used) && n == |Under(idx, Join(base, c))|
    ensures CountsOk(count[c := n], idx, base, used + {c})
  {
    hide Under, Join;
  }

  lemma AllInDir(idx: seq<Entry>, j: nat, k: nat, base: string, c: string, used: set<string>)
    requires j + k <= |idx| && c in used && forall i | j <= i < j + k :: InDir(idx[i].name, base, c)
    ensures forall i | j <= i < j + k :: CoveredAt(idx[i].name, base, used)
  {
    hide InSubdir;
  }

  /** The first loop of update_one: finds the subdirectories and updates their nodes. */
  method UpdateSubtrees(down0: seq<Sub>, idx: seq<Entry>, at: nat, base: string, store: Store)
    returns (n: int, down: seq<Sub>, used: set<string>, count: map<string, nat>)
    requires IndexOk(idx) && Region(idx, at, |Under(idx, base)|, base) && SubsOk(store.hash, down0, idx, base, {})
    ensures n >= 0 ==> n == |Under(idx, base)| && SubsOk(store.hash, down, idx, base, used) && CountsOk(count, idx, base, used)
    ensures n >= 0 ==> Covered(idx, at, n, base, used)
    ensures Healthy(store, idx) ==> n >= 0
    decreases |idx| - at, if at < |idx| then |idx[at].name| - |base| else 0, 0
  {
    hide *;
    down, used, count := down0, {}, map[];
    ghost var all := |Under(idx, base)|;
    RegionEnds(idx, at, all, base);
    FreshAtStart(idx, at, all, base);
    NothingCovered(idx, at, base);
    var i := 0;
    while at + i < |idx|
      invariant 0 <= i <= all && at + all <= |idx| && Fresh(idx, at + i, base)
      invariant SubsOk(store.hash, down, idx, base, used) && CountsOk(count, idx, base, used) && Covered(idx, at, i, base, used)
      decreases all - i
    {
      var ce := idx[at + i];
      BelowIs(ce.name, base);
      if |ce.name| <= |base| || ce.name[..|base|] != base {
        break;
      }
      assert i < all;
      var slash := Slash(ce.name, |base|);
      if slash == |ce.name| {
        FileIs(ce.name, base, used);
        FreshAfterFile(idx, at + i, base);
        MoreCovered(idx, at, i, 1, base, used, used);
        i := i + 1;
        continue;
      }
      var c := ce.name[|base|..slash];
      DirIs(ce.name, base);
      ghost var k := NextRegion(idx, at, all, base, i, c);
      SubsAreSorted(store.hash, down, idx, base, used);
      var grown, pos := FindOrCreate(down, c);
      GrowthIs(down, grown, pos, c);
      GrownIsGood(store.hash, down, grown, pos, c, idx, base, used);
      NameLonger(idx, at + i, k, base, c);
      var sub, subcnt := UpdateOne(grown[pos].tree, idx, at + i, base + c + "/", store);
      if subcnt < 0 {
        return subcnt, down, used, count;
      }
      // the index records no empty subtree
      assert subcnt != 0;
      SubUpdated(store.hash, down, grown, pos, c, idx, base, used, sub);
      down := grown[pos := grown[pos].(tree := sub)];
      OneMoreCount(count, idx, base, used, c, subcnt);
      count := count[c := subcnt];
      AllInDir(idx, at + i, k, base, c, used + {c});
      MoreCovered(idx, at, i, k, base, used, used + {c});
      used := used + {c};
      i := i + subcnt;
    }
    n := i;
  }

  /** discard_unused_subtrees */
  method DiscardUnused(down: seq<Sub>, used: set<string>, ghost hash: Hash, ghost idx: seq<Entry>, ghost base: string) returns (kept: seq<Sub>)
    requires SubsOk(hash, down, idx, base, used)
    ensures SubsOk(hash, kept, idx, base, used) && forall s | s in kept :: s.name in used
  {
    hide NameCmp, Under, Exact, Good, Join, NoSlash, SubOk;
    kept := [];
    for src := 0 to |down|
      invariant SubsSorted(kept) && forall s | s in kept :: s in down[..src] && s.name in used
      invariant forall s | s in down[..src] && s.name in used :: s in kept
    {
      var s := down[src];
      assert down[..src + 1] == down[..src] + [s];
      if s.name in used {
        AppendSorted(kept, down, src);
        kept := kept + [s];
      }
    }
    assert down[..|down|] == down;
    KeptIsOk(hash, down, kept, idx, base, used);
  }

  lemma AppendSorted(kept: seq<Sub>, down: seq<Sub>, src: nat)
    requires SubsSorted(kept) && SubsSorted(down) && src < |down| && forall s | s in kept :: s in down[..src]
    ensures SubsSorted(kept + [down[src]])
  {
    hide NameCmp;
    forall i | 0 <= i < |kept| ensures NameCmp(kept[i].name, down[src].name) < 0 {
      assert kept[i] in down[..src];
      var k :| 0 <= k < src && down[..src][k] == kept[i];
      assert down[k] == kept[i];
    }
  }

  lemma KeptIsOk(hash: Hash, down: seq<Sub>, kept: seq<Sub>, idx: seq<Entry>, base: string, used: set<string>)
    requires SubsOk(hash, down, idx, base, used) && SubsSorted(kept)
    requires (forall s | s in kept :: s in down) && (forall s | s in down && s.name in used :: s in kept)
    ensures SubsOk(hash, kept, idx, base, used)
  {
    hide NameCmp, Under, Exact, Good, Join, NoSlash, SubOk, SubsSorted;
    forall c | c in used ensures HasSub(kept, c) {
      var j :| 0 <= j < |down| && down[j].name == c;
      assert down[j] in kept;
      var k :| 0 <= k < |kept| && kept[k] == down[j];
    }
    forall i | 0 <= i < |kept| ensures SubOk(hash, kept[i], idx, base, kept[i].name in used) {
      assert kept[i] in down;
    }
  }

  // ---------- the tree object ----------

  /** What is still to be listed from entry `j` on. */
  ghost predicate Listing(hash: Hash, idx: seq<Entry>, at: nat, n: nat, base: string, j: nat, items: seq<Item>, ita: bool) {
    && j <= n && at + n <= |idx|
    && items + Items(hash, idx[at + j..at + n], base) == Items(hash, idx[at..at + n], base)
    && (ita <==> HasIta(idx[at..at + j]))
  }

  lemma ListingStarts(hash: Hash, idx: seq<Entry>, at: nat, n: nat, base: string)
    requires at + n <= |idx|
    ensures Listing(hash, idx, at, n, base, 0, [], false)
  {
    hide Items;
  }

  lemma ItaSplit(idx: seq<Entry>, a: nat, b: nat, c: nat)
    requires a <= b <= c <= |idx|
    ensures HasIta(idx[a..c]) <==> HasIta(idx[a..b]) || HasIta(idx[b..c])
  {
    var x, y, z := idx[a..b], idx[b..c], idx[a..c];
    assert forall i | 0 <= i < |x| :: z[i] == x[i];
    assert forall i | 0 <= i < |y| :: z[i + |x|] == y[i];
    if HasIta(z) {
      var i :| 0 <= i < |z| && z[i].intentToAdd;
      if i < |x| {
        assert x[i].intentToAdd;
      } else {
        assert y[i - |x|].intentToAdd;
      }
    }
    if HasIta(x) {
      var i :| 0 <= i < |x| && x[i].intentToAdd;
      assert z[i].intentToAdd;
    }
    if HasIta(y) {
      var i :| 0 <= i < |y| && y[i].intentToAdd;
      assert z[i + |x|].intentToAdd;
    }
  }

  lemma ItemsOfFile(hash: Hash, r: seq<Entry>, base: string)
    requires r != [] && Below(r[0].name, base) && Slash(r[0].name, |base|) == |r[0].name|
    ensures Items(hash, r, base) ==
      (if r[0].intentToAdd then [] else [Item(r[0].mode, r[0].name[|base|..], r[0].oid)]) + Items(hash, r[1..], base)
  {
  }

  lemma ItemsOfDir(hash: Hash, r: seq<Entry>, base: string, c: string, k: nat)
    requires r != [] && Below(r[0].name, base) && InDir(r[0].name, base, c) && k == Run(r, Join(base, c)) && k > 0
    ensures var oid := hash(Items(hash, r[..k], Join(base, c)));
      Items(hash, r, base) ==
        (if HasIta(r[..k]) && oid == hash([]) then [] else [Item(S_IFDIR, c, oid)]) + Items(hash, r[k..], base)
  {
    hide Below, HasIta;
  }

  lemma FileListed(hash: Hash, idx: seq<Entry>, at: nat, n: nat, base: string, j: nat, items: seq<Item>, ita: bool)
    requires Listing(hash, idx, at, n, base, j, items, ita) && j < n && Below(idx[at + j].name, base)
    requires Slash(idx[at + j].name, |base|) == |idx[at + j].name|
    ensures var e := idx[at + j];
      Listing(hash, idx, at, n, base, j + 1, if e.intentToAdd then items else items + [Item(e.mode, e.name[|base|..], e.oid)], ita || e.intentToAdd)
  {
    hide *;
    ListingBounds(hash, idx, at, n, base, j, items, ita);
    var r, e := idx[at + j..at + n], idx[at + j];
    assert r[0] == e && r[1..] == idx[at + j + 1..at + n];
    ItemsOfFile(hash, r, base);
    OneIta(idx, at + j);
    var more := if e.intentToAdd then [] else [Item(e.mode, e.name[|base|..], e.oid)];
    ListingNext(hash, idx, at, n, base, j, 1, items, more, ita, e.intentToAdd);
    ListMore(items, more, []);
  }

  lemma ListingBounds(hash: Hash, idx: seq<Entry>, at: nat, n: nat, base: string, j: nat, items: seq<Item>, ita: bool)
    requires Listing(hash, idx, at, n, base, j, items, ita)
    ensures j <= n && at + n <= |idx|
  {
  }

  /** The next `k` entries give `more`. */
  lemma ListingNext(hash: Hash, idx: seq<Entry>, at: nat, n: nat, base: string, j: nat, k: nat,
                    items: seq<Item>, more: seq<Item>, ita: bool, ita2: bool)
    requires Listing(hash, idx, at, n, base, j, items, ita) && j + k <= n
    requires Items(hash, idx[at + j..at + n], base) == more + Items(hash, idx[at + j + k..at + n], base)
    requires ita2 <==> HasIta(idx[at + j..at + j + k])
    ensures Listing(hash, idx, at, n, base, j + k, items + more, ita || ita2)
  {
    hide Items, HasIta;
    ListMore(items, more, Items(hash, idx[at + j + k..at + n], base));
    ItaSplit(idx, at, at + j, at + j + k);
  }

  lemma ListMore(items: seq<Item>, more: seq<Item>, rest: seq<Item>)
    ensures items + (more + rest) == (items + more) + rest && items + [] == items
  {
  }

  lemma OneIta(idx: seq<Entry>, j: nat)
    requires j < |idx|
    ensures HasIta(idx[j..j + 1]) <==> idx[j].intentToAdd
  {
    assert idx[j..j + 1] == [idx[j]];
    if idx[j].intentToAdd {
      assert [idx[j]][0].intentToAdd;
    }
  }

  lemma DirListed(hash: Hash, idx: seq<Entry>, at: nat, n: nat, base: string, j: nat, items: seq<Item>, ita: bool, c: string, k: nat, sub: DirTree)
    requires Listing(hash, idx, at, n, base, j, items, ita) && j < n && Below(idx[at + j].name, base) && InDir(idx[at + j].name, base, c)
    requires Region(idx, at + j, k, Join(base, c)) && 0 < k <= n - j && k == Run(idx[at + j..at + n], Join(base, c))
    requires Exact(hash, sub, idx, Join(base, c))
    ensures Listing(hash, idx, at, n, base, j + k, if sub.entryCount < 0 && sub.oid == hash([]) then items else items + [Item(S_IFDIR, c, sub.oid)],
                    ita || sub.entryCount < 0)
  {
    hide Items, Below, HasIta, Under, Join, InDir, SubsSorted, Complete;
    var r := idx[at + j..at + n];
    assert r[0] == idx[at + j] && r[k..] == idx[at + j + k..at + n] && r[..k] == idx[at + j..at + j + k] == Under(idx, Join(base, c));
    ItemsOfDir(hash, r, base, c, k);
    var more := if sub.entryCount < 0 && sub.oid == hash([]) then [] else [Item(S_IFDIR, c, sub.oid)];
    ListingNext(hash, idx, at, n, base, j, k, items, more, ita, sub.entryCount < 0);
    ListMore(items, more, []);
  }

  /** The second loop of update_one: lists the entries of the tree object. */
  method CollectItems(down: seq<Sub>, count: map<string, nat>, idx: seq<Entry>, at: nat, base: string, store: Store, ghost used: set<string>)
    returns (ok: bool, items: seq<Item>, toInvalidate: bool)
    requires IndexOk(idx) && Region(idx, at, |Under(idx, base)|, base) && SubsOk(store.hash, down, idx, base, used)
    requires CountsOk(count, idx, base, used) && Covered(idx, at, |Under(idx, base)|, base, used)
    ensures ok ==> Listing(store.hash, idx, at, |Under(idx, base)|, base, |Under(idx, base)|, items, toInvalidate)
    ensures Healthy(store, idx) ==> ok
  {
    hide *;
    ghost var all := |Under(idx, base)|;
    RegionEnds(idx, at, all, base);
    FreshAtStart(idx, at, all, base);
    ListingStarts(store.hash, idx, at, all, base);
    SubsAreSorted(store.hash, down, idx, base, used);
    items, toInvalidate := [], false;
    var i := 0;
    while at + i < |idx|
      invariant 0 <= i <= all && at + all <= |idx| && Fresh(idx, at + i, base)
      invariant Listing(store.hash, idx, at, all, base, i, items, toInvalidate)
      decreases all - i
    {
      var ce := idx[at + i];
      BelowIs(ce.name, base);
      if |ce.name| <= |base| || ce.name[..|base|] != base {
        break;
      }
      assert i < all;
      var slash := Slash(ce.name, |base|);
      if slash < |ce.name| {
        var c := ce.name[|base|..slash];
        DirIs(ce.name, base);
        ghost var k := NextRegion(idx, at, all, base, i, c);
        var pos := SubtreePos(down, c);
        var n := SubFound(store.hash, down, idx, base, used, count, at, all, i, c, pos);
        var sub := down[pos].tree;
        if Bad(store, S_IFDIR, sub.oid) {
          HashesAreThere(store, idx, sub, Join(base, c));
          return false, items, toInvalidate;
        }
        DirListed(store.hash, idx, at, all, base, i, items, toInvalidate, c, k, sub);
        if sub.entryCount < 0 {
          toInvalidate := true;
        }
        if !(sub.entryCount < 0 && sub.oid == store.hash([])) {
          items := items + [Item(S_IFDIR, c, sub.oid)];
        }
        i := i + count[c];
      } else {
        if Bad(store, ce.mode, ce.oid) {
          EntriesAreThere(store, idx, at + i);
          return false, items, toInvalidate;
        }
        FileListed(store.hash, idx, at, all, base, i, items, toInvalidate);
        FileIs(ce.name, base, used);
        FreshAfterFile(idx, at + i, base);
        if ce.intentToAdd {
          toInvalidate := true;
        } else {
          items := items + [Item(ce.mode, ce.name[|base|..], ce.oid)];
        }
        i := i + 1;
      }
    }
    ok := true;
  }

  lemma HashesAreThere(store: Store, idx: seq<Entry>, sub: DirTree, p: string)
    requires Exact(store.hash, sub, idx, p) && Bad(store, S_IFDIR, sub.oid)
    ensures !Healthy(store, idx)
  {
    hide Items, Under, Complete, SubsSorted;
  }

  lemma EntriesAreThere(store: Store, idx: seq<Entry>, j: nat)
    requires j < |idx| && Bad(store, idx[j].mode, idx[j].oid)
    ensures !Healthy(store, idx)
  {
    assert idx[j] in idx;
  }

  /** The subtree of a directory is there, with its count. */
  lemma SubFound(hash: Hash, down: seq<Sub>, idx: seq<Entry>, base: string, used: set<string>, count: map<string, nat>,
                 at: nat, all: nat, i: nat, c: string, pos: int) returns (n: nat)
    requires SubsOk(hash, down, idx, base, used) && CountsOk(count, idx, base, used) && Covered(idx, at, all, base, used)
    requires i < all && at + i < |idx| && InDir(idx[at + i].name, base, c)
    requires (pos >= 0 ==> pos < |down| && down[pos].name == c) && (pos < 0 ==> !HasSub(down, c))
    ensures 0 <= pos < |down| && down[pos].name == c && c in count && count[c] == |Under(idx, Join(base, c))| == n
    ensures Exact(hash, down[pos].tree, idx, Join(base, c))
  {
    hide Under, Exact, Join, InSubdir, SubsSorted, Good, NoSlash;
    assert CoveredAt(idx[at + i].name, base, used);
    assert SubOk(hash, down[pos], idx, base, down[pos].name in used);
    n := count[c];
  }

  lemma IsExact(hash: Hash, res: DirTree, idx: seq<Entry>, at: nat, base: string, used: set<string>, items: seq<Item>, ita: bool)
    requires Region(idx, at, |Under(idx, base)|, base) && SubsOk(hash, res.down, idx, base, used) && (forall s | s in res.down :: s.name in used)
    requires Covered(idx, at, |Under(idx, base)|, base, used)
    requires Listing(hash, idx, at, |Under(idx, base)|, base, |Under(idx, base)|, items, ita)
    requires res.entryCount == (if ita then -1 else |Under(idx, base)|) && res.oid == hash(items)
    ensures Exact(hash, res, idx, base)
  {
    hide Under, Join, InSubdir, SubsSorted, Good, NoSlash, HasIta, Items;
    var n := |Under(idx, base)|;
    NoItems(hash, idx, at + n, base);
    assert items == Items(hash, Under(idx, base), base);
    forall i | 0 <= i < |res.down|
      ensures NoSlash(res.down[i].name) && Under(idx, Join(base, res.down[i].name)) != [] && Exact(hash, res.down[i].tree, idx, Join(base, res.down[i].name))
    {
      assert res.down[i] in res.down && SubOk(hash, res.down[i], idx, base, true);
    }
    CoveredIsComplete(res.down, idx, at, base, used);
  }

  lemma CoveredIsComplete(down: seq<Sub>, idx: seq<Entry>, at: nat, base: string, used: set<string>)
    requires Region(idx, at, |Under(idx, base)|, base) && Covered(idx, at, |Under(idx, base)|, base, used) && forall c | c in used :: HasSub(down, c)
    ensures Complete(down, idx, base)
  {
    hide Under, InSubdir, HasSub;
    forall j | 0 <= j < |Under(idx, base)| && InSubdir(Under(idx, base)[j].name, base)
      ensures HasSub(down, Subdir(Under(idx, base)[j].name, base))
    {
      assert Under(idx, base)[j] == idx[at + j] && CoveredAt(idx[at + j].name, base, used);
    }
  }

  lemma NoItems(hash: Hash, idx: seq<Entry>, j: nat, base: string)
    requires j <= |idx|
    ensures Items(hash, idx[j..j], base) == []
  {
  }

  /** update_one: whatever nodes were valid before, the node ends up as computing it from the index makes it. */
  method UpdateOne(it: DirTree, idx: seq<Entry>, at: nat, base: string, store: Store) returns (res: DirTree, n: int)
    requires IndexOk(idx) && Good(store.hash, it, idx, base) && Region(idx, at, |Under(idx, base)|, base)
    ensures n >= 0 ==> n == |Under(idx, base)| && Exact(store.hash, res, idx, base)
    ensures Healthy(store, idx) ==> n >= 0
    decreases |idx| - at, if at < |idx| then |idx[at].name| - |base| else 0, 1
  {
    hide *;
    if 0 <= it.entryCount && store.has(it.oid) {
      ValidIsExact(store.hash, it, idx, base);
      return it, it.entryCount;
    }
    GoodSubs(store.hash, it, idx, base);
    var down, used, count;
    n, down, used, count := UpdateSubtrees(it.down, idx, at, base, store);
    if n < 0 {
      return it, n;
    }
    down := DiscardUnused(down, used, store.hash, idx, base);
    var ok, items, toInvalidate := CollectItems(down, count, idx, at, base, store, used);
    if !ok {
      return it, -1;
    }
    res := DirTree(if toInvalidate then -1 else n, store.hash(items), down);
    IsExact(store.hash, res, idx, at, base, used, items, toInvalidate);
  }

  lemma WholeIndex(idx: seq<Entry>)
    requires IndexOk(idx)
    ensures Region(idx, 0, |Under(idx, "")|, "") && |Under(idx, "")| == |idx|
  {
    hide Less;
    UnderSlice(idx, "", 0, |idx|);
  }

  /** An empty tree is good. */
  lemma EmptyIsGood(hash: Hash, idx: seq<Entry>, base: string)
    ensures Good(hash, EMPTY_TREE, idx, base)
  {
  }

  /** cache_tree_update. */
  method Update(it: DirTree, idx: seq<Entry>, store: Store) returns (res: DirTree, n: int)
    requires IndexOk(idx) && Good(store.hash, it, idx, "")
    ensures n >= 0 ==> n == |idx| && Exact(store.hash, res, idx, "")
    ensures Healthy(store, idx) ==> n >= 0
  {
    hide Items, Less, Exact, Good, Healthy;
    WholeIndex(idx);
    res, n := UpdateOne(it, idx, 0, "", store);
  }

  /** One edit of the index, in which only entries named `path` change. */
  datatype Change = Change(path: string, idx: seq<Entry>)

  /** The index after the first `k` edits. */
  function IndexAfter(idx: seq<Entry>, edits: seq<Change>, k: nat): seq<Entry>
    requires k <= |edits|
  {
    if k == 0 then idx else edits[k - 1].idx
  }

  /**
   A session: after each edit its path is invalidated, and in the end the tree is updated. Node for node, this
   gives the tree that updating an empty one gives; and both succeed when all objects are there.
   */
  method EditsThenUpdate(it: DirTree, idx: seq<Entry>, edits: seq<Change>, store: Store, full: Store)
    returns (res: DirTree, n: int, fromNothing: DirTree, m: int)
    requires Good(store.hash, it, idx, "") && store.hash == full.hash && IndexOk(IndexAfter(idx, edits, |edits|))
    requires forall k | 0 <= k < |edits| :: Edit(IndexAfter(idx, edits, k), IndexAfter(idx, edits, k + 1), edits[k].path)
    ensures n >= 0 && m >= 0 ==> res == fromNothing && n == m == |IndexAfter(idx, edits, |edits|)|
    ensures n >= 0 ==> ValidExactly(res, IndexAfter(idx, edits, |edits|), "")
    ensures Healthy(store, IndexAfter(idx, edits, |edits|)) ==> n >= 0
    ensures Healthy(full, IndexAfter(idx, edits, |edits|)) ==> m >= 0
  {
    hide Items, Exact, Good, Healthy, Edit, ValidExactly, IndexOk;
    res := it;
    for k := 0 to |edits|
      invariant Good(store.hash, res, IndexAfter(idx, edits, k), "")
    {
      assert "" + edits[k].path == edits[k].path;
      res := DoInvalidatePath(store.hash, res, edits[k].path, "", IndexAfter(idx, edits, k), IndexAfter(idx, edits, k + 1));
    }
    var now := IndexAfter(idx, edits, |edits|);
    res, n := Update(res, now, store);
    EmptyIsGood(full.hash, now, "");
    fromNothing, m := Update(EMPTY_TREE, now, full);
    if n >= 0 {
      ValidWithoutIta(store.hash, res, now, "");
      if m >= 0 {
        ExactIsUnique(store.hash, res, fromNothing, now, "");
      }
    }
  }

  /** Every node is valid exactly when no intended entry lies below it. */
  ghost predicate ValidExactly(t: DirTree, idx: seq<Entry>, base: string)
    decreases t
  {
    && (t.entryCount >= 0 <==> forall e | e in idx && Below(e.name, base) :: !e.intentToAdd)
    && forall i | 0 <= i < |t.down| :: ValidExactly(t.down[i].tree, idx, Join(base, t.down[i].name))
  }

  lemma {:induction false} ValidWithoutIta(hash: Hash, t: DirTree, idx: seq<Entry>, base: string)
    requires Exact(hash, t, idx, base)
    ensures ValidExactly(t, idx, base)
    decreases t
  {
    hide Items, Complete, SubsSorted, Join;
    ItaBelow(idx, base);
    forall i | 0 <= i < |t.down| ensures ValidExactly(t.down[i].tree, idx, Join(base, t.down[i].name)) {
      ValidWithoutIta(hash, t.down[i].tree, idx, Join(base, t.down[i].name));
    }
  }

  lemma ItaBelow(idx: seq<Entry>, base: string)
    ensures !HasIta(Under(idx, base)) <==> forall e | e in idx && Below(e.name, base) :: !e.intentToAdd
  {
    var u := Under(idx, base);
    forall e ensures e in u <==> e in idx && Below(e.name, base) {
      UnderIsIn(idx, base, e);
    }
  }
}
