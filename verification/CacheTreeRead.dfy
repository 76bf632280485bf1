/**
 Reading back the tree objects that the cache tree names: together they hold the index, but for entries
 that are only intended.
 */
module CacheTreeRead {
  import opened CacheTree
  import opened CacheTreeUpdate

  /** A file of a tree object or of an object below it, by its full name. */
  datatype Leaf = Leaf(name: string, mode: nat, oid: Oid)

  /** The type bits of a mode are those of a directory: mode & 0170000 == 0040000 in octal. */
  predicate IsDirMode(mode: nat) {
    mode / 0x1000 % 16 == 4
  }

  /** What a tree object says when it is looked into down to `depth` levels of directories. */
  function ReadItems(objects: Oid -> seq<Item>, items: seq<Item>, base: string, depth: nat): seq<Leaf>
    decreases depth, |items|
  {
    if items == [] then []
    else
      var item := items[0];
      (if !IsDirMode(item.mode) then [Leaf(base + item.name, item.mode, item.oid)]
       else if depth == 0 then []
       else ReadItems(objects, objects(item.oid), base + item.name + "/", depth - 1))
      + ReadItems(objects, items[1..], base, depth)
  }

  /** No two tree objects have the same hash, so that they can be found by it. */
  ghost predicate Finds(objects: Oid -> seq<Item>, hash: Hash) {
    forall items :: objects(hash(items)) == items
  }

  /** The entries that are more than intended. */
  function Listed(r: seq<Entry>): seq<Leaf> {
    if r == [] then []
    else (if r[0].intentToAdd then [] else [Leaf(r[0].name, r[0].mode, r[0].oid)]) + Listed(r[1..])
  }

  lemma {:induction false} ListedJoin(x: seq<Entry>, y: seq<Entry>)
    ensures Listed(x + y) == Listed(x) + Listed(y)
  {
    if x == [] {
      assert x + y == y;
    } else {
      assert (x + y)[1..] == x[1..] + y;
      ListedJoin(x[1..], y);
    }
  }

  /** Files with proper names somewhere below `base`, at most `depth` characters of the name further. */
  ghost predicate Files(r: seq<Entry>, base: string, depth: nat) {
    forall e | e in r ::
      Below(e.name, base) && e.name[|e.name| - 1] != '/' && |e.name| <= |base| + depth && !IsDirMode(e.mode)
  }

  lemma {:induction false} ItemsRead(hash: Hash, objects: Oid -> seq<Item>, r: seq<Entry>, base: string, depth: nat)
    requires Finds(objects, hash) && Files(r, base, depth)
    ensures ReadItems(objects, Items(hash, r, base), base, depth) == Listed(r)
    decreases |r|, if r == [] then 0 else |r[0].name| - |base|
  {
    hide IsDirMode, Finds, Items, Listed, ReadItems, Run;
    if r == [] {
      NothingRead(hash, objects, base, depth);
    } else {
      var e := r[0];
      assert e in r;
      var s := Slash(e.name, |base|);
      if s == |e.name| {
        ItemsRead(hash, objects, r[1..], base, depth);
        FileRead(hash, objects, r, base, depth);
      } else {
        var c := e.name[|base|..s];
        var p := Join(base, c);
        assert e.name[..|p|] == p;
        var k := Run(r, p);
        SubFiles(r, base, p, k, depth);
        ItemsRead(hash, objects, r[..k], p, depth - 1);
        ItemsRead(hash, objects, r[k..], base, depth);
        DirectoryRead(hash, objects, r, base, c, k, depth);
      }
    }
  }

  lemma NothingRead(hash: Hash, objects: Oid -> seq<Item>, base: string, depth: nat)
    ensures ReadItems(objects, Items(hash, [], base), base, depth) == Listed([])
  {
  }

  /** A file in the directory itself. */
  lemma FileRead(hash: Hash, objects: Oid -> seq<Item>, r: seq<Entry>, base: string, depth: nat)
    requires r != [] && Files(r, base, depth) && Slash(r[0].name, |base|) == |r[0].name|
    requires ReadItems(objects, Items(hash, r[1..], base), base, depth) == Listed(r[1..])
    ensures ReadItems(objects, Items(hash, r, base), base, depth) == Listed(r)
  {
    hide IsDirMode, Items;
    var e, rest := r[0], Items(hash, r[1..], base);
    assert e in r && base + e.name[|base|..] == e.name;
    ItemsOfFile(hash, r, base);
    if e.intentToAdd {
      assert [] + rest == rest;
    } else {
      ReadOne(objects, Item(e.mode, e.name[|base|..], e.oid), rest, base, depth);
    }
  }

  lemma ReadOne(objects: Oid -> seq<Item>, item: Item, rest: seq<Item>, base: string, depth: nat)
    ensures !IsDirMode(item.mode) ==>
      ReadItems(objects, [item] + rest, base, depth) == [Leaf(base + item.name, item.mode, item.oid)] + ReadItems(objects, rest, base, depth)
    ensures IsDirMode(item.mode) && depth > 0 ==>
      ReadItems(objects, [item] + rest, base, depth)
        == ReadItems(objects, objects(item.oid), base + item.name + "/", depth - 1) + ReadItems(objects, rest, base, depth)
  {
    hide IsDirMode;
    assert ([item] + rest)[1..] == rest;
  }

  /** A run of entries in a subdirectory, whose own object and those of the entries behind it are read. */
  lemma DirectoryRead(hash: Hash, objects: Oid -> seq<Item>, r: seq<Entry>, base: string, c: string, k: nat, depth: nat)
    requires Finds(objects, hash) && r != [] && Below(r[0].name, base) && InDir(r[0].name, base, c)
    requires 0 < k <= |r| && k == Run(r, Join(base, c)) && depth > 0
    requires ReadItems(objects, Items(hash, r[..k], Join(base, c)), Join(base, c), depth - 1) == Listed(r[..k])
    requires ReadItems(objects, Items(hash, r[k..], base), base, depth) == Listed(r[k..])
    ensures ReadItems(objects, Items(hash, r, base), base, depth) == Listed(r)
  {
    hide IsDirMode, Items, Listed, ReadItems, Run, HasIta, Below;
    var sub, rest := Items(hash, r[..k], Join(base, c)), Items(hash, r[k..], base);
    ItemsOfDir(hash, r, base, c, k);
    assert r[..k] + r[k..] == r;
    ListedJoin(r[..k], r[k..]);
    assert objects(hash(sub)) == sub && objects(hash([])) == [];
    if HasIta(r[..k]) && hash(sub) == hash([]) {
      EmptyRead(objects, Join(base, c), depth - 1);
      assert [] + rest == rest && [] + Listed(r[k..]) == Listed(r[k..]);
    } else {
      ModeIsRead();
      ReadOne(objects, Item(S_IFDIR, c, hash(sub)), rest, base, depth);
    }
  }

  lemma EmptyRead(objects: Oid -> seq<Item>, base: string, depth: nat)
    ensures ReadItems(objects, [], base, depth) == []
  {
  }

  lemma ModeIsRead()
    ensures IsDirMode(S_IFDIR)
  {
  }

  lemma SubFiles(r: seq<Entry>, base: string, p: string, k: nat, depth: nat)
    requires Files(r, base, depth) && r != [] && |p| > |base| && Below(r[0].name, p) && k == Run(r, p)
    ensures 0 < k <= |r| && depth > 0 && Files(r[..k], p, depth - 1) && Files(r[k..], base, depth)
  {
    hide IsDirMode;
    assert r[0] in r;
    forall e | e in r[..k] ensures e in r && Below(e.name, p) {
      var i :| 0 <= i < k && r[..k][i] == e;
      assert r[i] == e;
    }
    forall e | e in r[k..] ensures e in r {
    }
  }

  /** Every node that is right names a tree object that holds its part of the index. */
  lemma NodeRead(hash: Hash, objects: Oid -> seq<Item>, t: DirTree, idx: seq<Entry>, base: string, depth: nat)
    requires Finds(objects, hash) && Exact(hash, t, idx, base) && Files(Under(idx, base), base, depth)
    ensures ReadItems(objects, objects(t.oid), base, depth) == Listed(Under(idx, base))
  {
    hide Items, Files;
    ItemsRead(hash, objects, Under(idx, base), base, depth);
  }

  /** After an update, the tree objects below the root hold the files of the index that are more than intended, in order, and nothing else. */
  lemma IndexRead(hash: Hash, objects: Oid -> seq<Item>, t: DirTree, idx: seq<Entry>, depth: nat)
    requires Finds(objects, hash) && Exact(hash, t, idx, "") && IndexOk(idx)
    requires forall e | e in idx :: |e.name| <= depth && !IsDirMode(e.mode)
    ensures ReadItems(objects, objects(t.oid), "", depth) == Listed(idx)
  {
    hide IsDirMode;
    AllUnderRoot(idx);
    NodeRead(hash, objects, t, idx, "", depth);
  }

  lemma {:induction false} AllUnderRoot(idx: seq<Entry>)
    requires forall e | e in idx :: e.name != ""
    ensures Under(idx, "") == idx
  {
    if idx != [] {
      AllUnderRoot(idx[..|idx| - 1]);
      assert idx[|idx| - 1] in idx;
    }
  }
}
