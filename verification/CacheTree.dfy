/**
 The cache tree of cache-tree.c: a node for every directory of the index, with the number of
 its entries and the hash of its tree object while they are known.
 */
module CacheTree {

  type Oid = string

  datatype Sub = Sub(name: string, tree: DirTree)

  /** A negative count marks a node as invalid. */
  datatype DirTree = DirTree(entryCount: int, oid: Oid, down: seq<Sub>)

  const NULL_OID: Oid := ""

  /** cache_tree() */
  const EMPTY_TREE := DirTree(-1, NULL_OID, [])

  // ---------- the order of names ----------

  /** memcmp of names of the same length. */
  function Compare(a: string, b: string): int
    requires |a| == |b|
  {
    if a == [] then 0 else if a[0] < b[0] then -1 else if b[0] < a[0] then 1 else Compare(a[1..], b[1..])
  }

  /** subtree_name_cmp */
  function NameCmp(a: string, b: string): int {
    if |a| < |b| then -1 else if |b| < |a| then 1 else Compare(a, b)
  }

  lemma {:induction false} CompareIsOrder(a: string, b: string, c: string)
    requires |a| == |b| == |c|
    ensures Compare(a, b) == 0 <==> a == b
    ensures Compare(a, b) == -Compare(b, a) && -1 <= Compare(a, b) <= 1
    ensures Compare(a, b) <= 0 && Compare(b, c) <= 0 ==> Compare(a, c) <= 0 && (Compare(a, c) == 0 ==> Compare(a, b) == Compare(b, c) == 0)
  {
    if a != [] {
      CompareIsOrder(a[1..], b[1..], c[1..]);
      assert a == [a[0]] + a[1..] && b == [b[0]] + b[1..];
    }
  }

  lemma NameCmpIsOrder(a: string, b: string, c: string)
    ensures NameCmp(a, b) == 0 <==> a == b
    ensures NameCmp(a, b) == -NameCmp(b, a) && -1 <= NameCmp(a, b) <= 1
    ensures NameCmp(a, b) < 0 && NameCmp(b, c) < 0 ==> NameCmp(a, c) < 0
  {
    if |a| == |b| {
      CompareIsOrder(a, b, if |c| == |a| then c else a);
    }
    if |b| == |c| && |a| == |b| {
      CompareIsOrder(b, c, a);
    }
  }

  ghost predicate SubsSorted(down: seq<Sub>) {
    forall i, j | 0 <= i < j < |down| :: NameCmp(down[i].name, down[j].name) < 0
  }

  ghost predicate HasSub(down: seq<Sub>, name: string) {
    exists i :: 0 <= i < |down| && down[i].name == name
  }

  ghost predicate BelongsAt(down: seq<Sub>, name: string, pos: nat) {
    && pos <= |down| && (forall i | 0 <= i < pos :: NameCmp(down[i].name, name) < 0)
    && (forall i | pos <= i < |down| :: NameCmp(name, down[i].name) < 0)
  }

  /** cache_tree_subtree_pos: the index of a name, or where it belongs, as -index-1. */
  method SubtreePos(down: seq<Sub>, path: string) returns (pos: int)
    requires SubsSorted(down)
    ensures pos >= 0 ==> pos < |down| && down[pos].name == path
    ensures pos < 0 ==> BelongsAt(down, path, -pos - 1) && !HasSub(down, path)
  {
    hide NameCmp;
    var lo, hi := 0, |down|;
    while lo < hi
      invariant 0 <= lo <= hi <= |down|
      invariant forall i | 0 <= i < lo :: NameCmp(down[i].name, path) < 0
      invariant forall i | hi <= i < |down| :: NameCmp(path, down[i].name) < 0
    {
      var mi := lo + (hi - lo) / 2;
      var cmp := NameCmp(path, down[mi].name);
      NameCmpIsOrder(path, down[mi].name, path);
      if cmp == 0 {
        return mi;
      }
      if cmp < 0 {
        forall i | mi <= i < |down| ensures NameCmp(path, down[i].name) < 0 {
          NameCmpIsOrder(path, down[mi].name, down[i].name);
        }
        hi := mi;
      } else {
        forall i | 0 <= i <= mi ensures NameCmp(down[i].name, path) < 0 {
          NameCmpIsOrder(down[i].name, down[mi].name, path);
        }
        lo := mi + 1;
      }
    }
    if HasSub(down, path) {
      var i :| 0 <= i < |down| && down[i].name == path;
      NameCmpIsOrder(path, path, path);
    }
    pos := -lo - 1;
  }

  /** The entries with one more at `pos`. */
  function Inserted(down: seq<Sub>, pos: nat, sub: Sub): seq<Sub>
    requires pos <= |down|
  {
    down[..pos] + [sub] + down[pos..]
  }

  /** find_subtree with `create`: an entry that is missing is put where the order wants it. */
  method FindOrCreate(down: seq<Sub>, path: string) returns (grown: seq<Sub>, pos: nat)
    requires SubsSorted(down)
    ensures pos < |grown| && SubsSorted(grown) && grown[pos].name == path
    ensures HasSub(down, path) ==> grown == down
    ensures !HasSub(down, path) ==> BelongsAt(down, path, pos) && grown == Inserted(down, pos, Sub(path, EMPTY_TREE))
  {
    hide NameCmp;
    var p := SubtreePos(down, path);
    if 0 <= p {
      return down, p;
    }
    pos := -p - 1;
    grown := Inserted(down, pos, Sub(path, EMPTY_TREE));
    InsertSorted(down, pos, Sub(path, EMPTY_TREE));
  }

  lemma InsertSorted(down: seq<Sub>, pos: nat, sub: Sub)
    requires SubsSorted(down) && BelongsAt(down, sub.name, pos)
    ensures SubsSorted(Inserted(down, pos, sub))
  {
    hide NameCmp;
    var all := Inserted(down, pos, sub);
    forall i, j | 0 <= i < j < |all| ensures NameCmp(all[i].name, all[j].name) < 0 {
      if i < pos < j {
        assert all[i] == down[i] && all[j] == down[j - 1];
      } else if i < pos && j < pos {
        assert all[i] == down[i] && all[j] == down[j];
      } else if i > pos {
        assert all[i] == down[i - 1] && all[j] == down[j - 1];
      }
    }
  }
}
