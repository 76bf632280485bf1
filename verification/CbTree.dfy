/**
 Crit-bit tree of cbtree.c.

 A node is one heap object that serves twice: as the leaf that carries a key and, except
 for the first node inserted, as one internal branch somewhere above it.  The tag bit that
 the C code keeps in a child pointer is the choice between `Ext` and `Int` in `Ptr`.
 The tree the pointers spell out is the ghost value `Shape`.
 */
module CbTree {
  import opened Wrappers

  type Key = seq<bv8>

  /** `wherep`: the pointer at the top, or one child pointer of a node. */
  datatype Place = Here | ChildOf(holder: CbNode, side: bool)

  datatype Ptr = Nil | Ext(node: CbNode) | Int(node: CbNode)

  class CbNode {
    const key: Key
    var child0: Ptr
    var child1: Ptr
    var byte: nat
    var otherbits: bv8

    constructor (key: Key)
      ensures this.key == key
    {
      this.key := key;
      child0, child1, byte, otherbits := Nil, Nil, 0, 0;
    }

    function Child(direction: bool): Ptr
      reads this
    {
      if direction then child1 else child0
    }

    method SetChild(direction: bool, p: Ptr)
      modifies this
      ensures Child(direction) == p && Child(!direction) == old(Child(!direction))
      ensures byte == old(byte) && otherbits == old(otherbits)
    {
      if direction { child1 := p; } else { child0 := p; }
    }
  }

  // ---------- bits ----------

  /** The child to turn to: the carry out of the byte, which says that the bit clear in `other` is set in `c`. */
  predicate Direction(other: bv8, c: bv8): (one: bool)
    ensures one <==> other | c == 0xFF
  {
    CarryFits(other | c);
    (1 + ((other | c) as bv16)) >> 8 == 1
  }

  lemma CarryFits(x: bv8)
    ensures ((1 as bv16) + (x as bv16)) >> 8 == if x == 0xFF then 1 else 0
  {
    assert x as bv16 < 0x100;
  }

  /** A byte with exactly one clear bit; smaller masks clear a more significant bit. */
  predicate IsMask(m: bv8) {
    m == 0x7F || m == 0xBF || m == 0xDF || m == 0xEF || m == 0xF7 || m == 0xFB || m == 0xFD || m == 0xFE
  }

  /** The or-and-shift cascade that isolates the most significant differing bit. */
  function CritMask(a: bv8, b: bv8): bv8 {
    var x := a ^ b;
    var x1 := x | (x >> 1);
    var x2 := x1 | (x1 >> 2);
    var x4 := x2 | (x2 >> 4);
    (x4 & !(x4 >> 1)) ^ 0xFF
  }

  lemma CritMaskIsMask(a: bv8, b: bv8)
    requires a != b
    ensures IsMask(CritMask(a, b))
  {
  }

  lemma CritMaskSplits(a: bv8, b: bv8)
    requires a != b
    ensures Direction(CritMask(a, b), a) != Direction(CritMask(a, b), b)
    ensures Direction(CritMask(a, b), b) <==> a < b
  {
  }

  lemma CritMaskIsFirst(a: bv8, b: bv8, other: bv8)
    requires a != b && IsMask(other) && other < CritMask(a, b)
    ensures Direction(other, a) == Direction(other, b)
  {
  }

  /** Bytes that agree on every bit above `m` are ordered by the bit at `m`. */
  lemma DirectionOrders(m: bv8, a: bv8, b: bv8)
    requires IsMask(m) && !Direction(m, a) && Direction(m, b)
    requires forall other | IsMask(other) && other < m :: Direction(other, a) == Direction(other, b)
    ensures a < b
  {
    assert a != b;
    CritMaskIsMask(a, b);
    CritMaskSplits(a, b);
    if CritMask(a, b) > m {
      CritMaskIsFirst(a, b, m);
      assert false;
    }
  }

  // ---------- positions ----------

  /** `otherbits` comparison: the bit cleared in `x` is less significant than the one cleared in `y`. */
  predicate Greater(x: bv8, y: bv8) {
    x > y
  }

  predicate Before(b1: nat, o1: bv8, b2: nat, o2: bv8) {
    b1 < b2 || (b1 == b2 && o1 < o2)
  }

  /** The branch that a search for `k` takes at a position; past the end of the key it reads zero. */
  predicate Branch(k: Key, byte: nat, other: bv8) {
    Direction(other, if byte < |k| then k[byte] else 0)
  }

  ghost predicate AgreeBefore(x: Key, y: Key, byte: nat, other: bv8)
    requires byte < |x| && byte < |y|
  {
    && (forall i | 0 <= i < byte :: x[i] == y[i])
    && (forall o | IsMask(o) && o < other :: Direction(o, x[byte]) == Direction(o, y[byte]))
  }

  lemma AgreeEarlier(x: Key, y: Key, b1: nat, o1: bv8, b2: nat, o2: bv8)
    requires |x| == |y| && b2 < |x| && IsMask(o1) && Before(b1, o1, b2, o2) && AgreeBefore(x, y, b2, o2)
    ensures AgreeBefore(x, y, b1, o1) && Branch(x, b1, o1) == Branch(y, b1, o1)
  {
  }

  lemma AgreeReflexive(x: Key, byte: nat, other: bv8)
    requires byte < |x|
    ensures AgreeBefore(x, x, byte, other)
  {
    hide Direction;
  }

  lemma AgreeTransitive(x: Key, y: Key, z: Key, byte: nat, other: bv8)
    requires byte < |x| && byte < |y| && byte < |z|
    requires AgreeBefore(x, z, byte, other) && AgreeBefore(y, z, byte, other)
    ensures AgreeBefore(x, y, byte, other) && AgreeBefore(y, x, byte, other)
  {
    hide Direction;
  }

  ghost predicate LessAt(x: Key, y: Key, i: nat) {
    i < |x| && i < |y| && x[..i] == y[..i] && x[i] < y[i]
  }

  /** Ascending byte order. */
  ghost predicate Less(x: Key, y: Key) {
    exists i: nat :: LessAt(x, y, i)
  }

  lemma BranchOrders(x: Key, y: Key, byte: nat, other: bv8)
    requires byte < |x| && byte < |y| && IsMask(other) && AgreeBefore(x, y, byte, other)
    requires !Branch(x, byte, other) && Branch(y, byte, other)
    ensures Less(x, y)
  {
    DirectionOrders(other, x[byte], y[byte]);
    assert LessAt(x, y, byte);
  }

  // ---------- shapes ----------

  datatype Shape = Leaf(n: CbNode) | Node(n: CbNode, byte: nat, other: bv8, left: Shape, right: Shape)

  ghost function Sub(s: Shape, direction: bool): Shape
    requires s.Node?
  {
    if direction then s.right else s.left
  }

  ghost function Contents(s: Shape): map<Key, CbNode> {
    match s
    case Leaf(n) => map[n.key := n]
    case Node(_, _, _, l, r) => Contents(l) + Contents(r)
  }

  /** The leaves from left to right. */
  ghost function Leaves(s: Shape): seq<CbNode> {
    match s
    case Leaf(n) => [n]
    case Node(_, _, _, l, r) => Leaves(l) + Leaves(r)
  }

  ghost function Inner(s: Shape): set<CbNode> {
    match s
    case Leaf(_) => {}
    case Node(n, _, _, l, r) => {n} + Inner(l) + Inner(r)
  }

  ghost predicate After(s: Shape, byte: nat, other: bv8) {
    s.Node? ==> Before(byte, other, s.byte, s.other)
  }

  /** A branch at `(b, o)` sends `ls` left and `rs` right, and they agree before that position. */
  ghost predicate Discriminates(ls: set<Key>, rs: set<Key>, b: nat, o: bv8, len: nat)
    requires b < len
  {
    && (forall k | k in ls + rs :: |k| == len)
    && (forall k | k in ls :: !Branch(k, b, o))
    && (forall k | k in rs :: Branch(k, b, o))
    && (forall x, y | x in ls + rs && y in ls + rs :: AgreeBefore(x, y, b, o))
  }

  lemma DiscriminatesMore(ls: set<Key>, rs: set<Key>, b: nat, o: bv8, len: nat, k: Key)
    requires b < len && Discriminates(ls, rs, b, o, len)
    requires |k| == len && forall x | x in ls + rs :: AgreeBefore(x, k, b, o)
    ensures if Branch(k, b, o) then Discriminates(ls, rs + {k}, b, o, len) else Discriminates(ls + {k}, rs, b, o, len)
  {
    hide AgreeBefore, Branch;
    AgreeReflexive(k, b, o);
    var all := ls + rs + {k};
    forall x, y | x in all && y in all ensures AgreeBefore(x, y, b, o) {
      AgreeTransitive(x, y, k, b, o);
    }
    assert ls + (rs + {k}) == all && (ls + {k}) + rs == all;
  }

  /** The crit-bit invariant for keys of length `len`. */
  ghost predicate WellFormed(s: Shape, len: nat) {
    match s
    case Leaf(n) => |n.key| == len
    case Node(n, b, o, l, r) =>
      && b < len && IsMask(o)
      && WellFormed(l, len) && WellFormed(r, len)
      && After(l, b, o) && After(r, b, o)
      && Discriminates(Contents(l).Keys, Contents(r).Keys, b, o, len)
  }

  lemma ContentsLength(s: Shape, len: nat)
    requires WellFormed(s, len)
    ensures forall k | k in Contents(s) :: |k| == len
    ensures exists k :: k in Contents(s)
  {
    if s.Leaf? {
      assert s.n.key in Contents(s);
    } else {
      ContentsLength(s.left, len);
      var k :| k in Contents(s.left);
      assert k in Contents(s);
    }
  }

  /** Every internal node is used once, and is also a leaf of the tree. */
  ghost predicate Distinct(s: Shape) {
    s.Node? ==>
      && s.n !in Inner(s.left) && s.n !in Inner(s.right)
      && Inner(s.left) !! Inner(s.right)
      && Distinct(s.left) && Distinct(s.right)
  }

  lemma {:induction false} ContentsKeys(s: Shape)
    ensures forall k | k in Contents(s) :: Contents(s)[k].key == k
  {
    if s.Node? {
      ContentsKeys(s.left);
      ContentsKeys(s.right);
    }
  }

  // ---------- searching ----------

  /** The leaf at which a search for `k` ends. */
  ghost function Best(s: Shape, k: Key): CbNode {
    match s
    case Leaf(n) => n
    case Node(_, b, o, l, r) => if Branch(k, b, o) then Best(r, k) else Best(l, k)
  }

  lemma {:induction false} BestIsMember(s: Shape, k: Key, len: nat)
    requires WellFormed(s, len)
    ensures Best(s, k).key in Contents(s) && Contents(s)[Best(s, k).key] == Best(s, k)
  {
    if s.Node? {
      BestIsMember(Sub(s, Branch(k, s.byte, s.other)), k, len);
      if !Branch(k, s.byte, s.other) {
        assert Best(s, k).key !in Contents(s.right);
      }
    }
  }

  /** The search is membership. */
  lemma {:induction false} BestFindsKey(s: Shape, k: Key, len: nat)
    requires WellFormed(s, len) && k in Contents(s)
    ensures Best(s, k) == Contents(s)[k] && Best(s, k).key == k
  {
    if s.Node? {
      BestFindsKey(Sub(s, Branch(k, s.byte, s.other)), k, len);
    }
  }

  // ---------- inserting ----------

  /** Does the search for the insertion place stop above `s`? */
  ghost predicate StopsAt(s: Shape, byte: nat, other: bv8) {
    s.Leaf? || s.byte > byte || (s.byte == byte && Greater(s.other, other))
  }

  ghost function Splice(s: Shape, n: CbNode, byte: nat, other: bv8, direction: bool): Shape {
    if StopsAt(s, byte, other) then
      if direction then Node(n, byte, other, Leaf(n), s) else Node(n, byte, other, s, Leaf(n))
    else if Branch(n.key, s.byte, s.other) then
      s.(right := Splice(s.right, n, byte, other, direction))
    else
      s.(left := Splice(s.left, n, byte, other, direction))
  }

  /** `(byte, other)` is the first position at which `x` and `y` differ. */
  ghost predicate Crit(x: Key, y: Key, byte: nat, other: bv8) {
    && |x| == |y| && byte < |x| && IsMask(other)
    && AgreeBefore(x, y, byte, other)
    && Branch(x, byte, other) != Branch(y, byte, other)
  }

  lemma CritExists(x: Key, y: Key, byte: nat)
    requires |x| == |y| && byte < |x| && x[..byte] == y[..byte] && x[byte] != y[byte]
    ensures Crit(x, y, byte, CritMask(x[byte], y[byte]))
  {
    hide Direction, CritMask;
    CritMaskIsMask(x[byte], y[byte]);
    CritMaskSplits(x[byte], y[byte]);
    forall i | 0 <= i < byte ensures x[i] == y[i] {
      assert x[..byte][i] == y[..byte][i];
    }
    forall o | IsMask(o) && o < CritMask(x[byte], y[byte]) ensures Direction(o, x[byte]) == Direction(o, y[byte]) {
      CritMaskIsFirst(x[byte], y[byte], o);
    }
  }

  /** Every key below the place where the search stops sits on the best match's side. */
  lemma StopSeparates(s: Shape, n: CbNode, len: nat, byte: nat, other: bv8, k: Key)
    requires WellFormed(s, len) && |n.key| == len && Crit(n.key, Best(s, n.key).key, byte, other)
    requires StopsAt(s, byte, other) && k in Contents(s)
    ensures |k| == len && AgreeBefore(k, n.key, byte, other)
    ensures Branch(k, byte, other) == Branch(Best(s, n.key).key, byte, other)
    ensures After(s, byte, other)
  {
    ContentsLength(s, len);
    if s.Node? {
      BestIsMember(s, n.key, len);
      var p := Best(s, n.key).key;
      assert AgreeBefore(k, p, s.byte, s.other);
      AgreeEarlier(k, p, byte, other, s.byte, s.other);
    }
  }

  lemma MapUpdateBeside<K, V>(m: map<K, V>, k: K, v: V)
    requires k !in m
    ensures map[k := v] + m == m[k := v] == m + map[k := v]
  {
  }

  lemma SpliceHere(s: Shape, n: CbNode, len: nat, byte: nat, other: bv8)
    requires WellFormed(s, len) && |n.key| == len && Crit(n.key, Best(s, n.key).key, byte, other)
    requires StopsAt(s, byte, other)
    ensures var t := Splice(s, n, byte, other, Branch(Best(s, n.key).key, byte, other));
            WellFormed(t, len) && Contents(t) == Contents(s)[n.key := n]
  {
    hide Direction, IsMask, Branch, AgreeBefore, Greater;
    var d := Branch(Best(s, n.key).key, byte, other);
    var t := Splice(s, n, byte, other, d);
    var keys := Contents(s).Keys;
    ContentsLength(s, len);
    forall k | k in keys
      ensures AgreeBefore(k, n.key, byte, other) && Branch(k, byte, other) == d
    {
      StopSeparates(s, n, len, byte, other, k);
    }
    var k0 :| k0 in keys;
    StopSeparates(s, n, len, byte, other, k0);
    assert n.key !in keys;
    MapUpdateBeside(Contents(s), n.key, n);
    forall x, y | x in keys && y in keys ensures AgreeBefore(x, y, byte, other) {
      AgreeTransitive(x, y, n.key, byte, other);
    }
    if d {
      DiscriminatesMore({}, keys, byte, other, len, n.key);
      assert {} + {n.key} == Contents(Leaf(n)).Keys;
    } else {
      DiscriminatesMore(keys, {}, byte, other, len, n.key);
      assert {} + {n.key} == Contents(Leaf(n)).Keys;
    }
  }

  /** An internal node met before the search stops lies strictly before the critical position. */
  lemma PassesStrictly(s: Shape, n: CbNode, len: nat, byte: nat, other: bv8)
    requires WellFormed(s, len) && |n.key| == len && Crit(n.key, Best(s, n.key).key, byte, other)
    requires !StopsAt(s, byte, other)
    ensures Before(s.byte, s.other, byte, other)
    ensures forall k | k in Contents(s) :: |k| == len && AgreeBefore(k, n.key, s.byte, s.other)
  {
    hide Direction, AgreeBefore, Branch;
    var p := Best(s, n.key).key;
    var side := Sub(s, Branch(n.key, s.byte, s.other));
    BestIsMember(side, n.key, len);
    assert p in Contents(s);
    assert Branch(p, s.byte, s.other) == Branch(n.key, s.byte, s.other);
    AgreeEarlier(n.key, p, s.byte, s.other, byte, other);
    forall k | k in Contents(s) ensures |k| == len && AgreeBefore(k, n.key, s.byte, s.other) {
      AgreeTransitive(k, n.key, p, s.byte, s.other);
    }
  }

  lemma {:induction false} SpliceWellFormed(s: Shape, n: CbNode, len: nat, byte: nat, other: bv8)
    requires WellFormed(s, len) && |n.key| == len && Crit(n.key, Best(s, n.key).key, byte, other)
    ensures var t := Splice(s, n, byte, other, Branch(Best(s, n.key).key, byte, other));
            && WellFormed(t, len) && Contents(t) == Contents(s)[n.key := n]
            && (forall b, o | Before(b, o, byte, other) && After(s, b, o) :: After(t, b, o))
    decreases s
  {
    if StopsAt(s, byte, other) {
      SpliceHere(s, n, len, byte, other);
    } else {
      PassesStrictly(s, n, len, byte, other);
      SpliceWellFormed(Sub(s, Branch(n.key, s.byte, s.other)), n, len, byte, other);
      SpliceContents(s, n, len, byte, other, Branch(Best(s, n.key).key, byte, other));
      SpliceBelow(s, n, len, byte, other);
    }
  }

  lemma MapUpdateRight<K, V>(l: map<K, V>, r: map<K, V>, k: K, v: V)
    ensures l + r[k := v] == (l + r)[k := v]
  {
  }

  lemma MapUpdateLeft<K, V>(l: map<K, V>, r: map<K, V>, k: K, v: V)
    requires k !in r
    ensures l[k := v] + r == (l + r)[k := v]
  {
  }

  lemma SpliceContents(s: Shape, n: CbNode, len: nat, byte: nat, other: bv8, d: bool)
    requires WellFormed(s, len) && s.Node? && !StopsAt(s, byte, other)
    requires var side := Sub(s, Branch(n.key, s.byte, s.other));
             Contents(Splice(side, n, byte, other, d)) == Contents(side)[n.key := n]
    ensures Contents(Splice(s, n, byte, other, d)) == Contents(s)[n.key := n]
  {
    hide IsMask, Branch, AgreeBefore;
    if Branch(n.key, s.byte, s.other) {
      MapUpdateRight(Contents(s.left), Contents(s.right), n.key, n);
    } else {
      MapUpdateLeft(Contents(s.left), Contents(s.right), n.key, n);
    }
  }

  lemma SpliceBelow(s: Shape, n: CbNode, len: nat, byte: nat, other: bv8)
    requires WellFormed(s, len) && |n.key| == len && s.Node? && !StopsAt(s, byte, other)
    requires Before(s.byte, s.other, byte, other)
    requires forall k | k in Contents(s) :: |k| == len && AgreeBefore(k, n.key, s.byte, s.other)
    requires var side := Sub(s, Branch(n.key, s.byte, s.other));
             var u := Splice(side, n, byte, other, Branch(Best(s, n.key).key, byte, other));
             && WellFormed(u, len) && Contents(u) == Contents(side)[n.key := n]
             && After(u, s.byte, s.other)
    ensures var t := Splice(s, n, byte, other, Branch(Best(s, n.key).key, byte, other));
            WellFormed(t, len)
  {
    hide Direction, IsMask, Branch, AgreeBefore, Best, Discriminates;
    var t := Splice(s, n, byte, other, Branch(Best(s, n.key).key, byte, other));
    var ls, rs := Contents(s.left).Keys, Contents(s.right).Keys;
    assert Contents(s).Keys == ls + rs;
    DiscriminatesMore(ls, rs, s.byte, s.other, len, n.key);
    if Branch(n.key, s.byte, s.other) {
      assert Contents(t.right).Keys == rs + {n.key};
    } else {
      assert Contents(t.left).Keys == ls + {n.key};
    }
  }

  lemma {:induction false} SpliceInner(s: Shape, n: CbNode, byte: nat, other: bv8, d: bool)
    requires Distinct(s) && n !in Inner(s)
    ensures Distinct(Splice(s, n, byte, other, d)) && Inner(Splice(s, n, byte, other, d)) == Inner(s) + {n}
  {
    if !StopsAt(s, byte, other) {
      SpliceInner(Sub(s, Branch(n.key, s.byte, s.other)), n, byte, other, d);
    }
  }

  // ---------- order and prefixes ----------

  ghost predicate Ascending(ns: seq<CbNode>) {
    forall i, j | 0 <= i < j < |ns| :: Less(ns[i].key, ns[j].key)
  }

  lemma {:induction false} LeavesAreContents(s: Shape, len: nat)
    requires WellFormed(s, len)
    ensures forall n | n in Leaves(s) :: n.key in Contents(s) && Contents(s)[n.key] == n
    ensures forall k | k in Contents(s) :: Contents(s)[k] in Leaves(s)
  {
    if s.Node? {
      LeavesAreContents(s.left, len);
      LeavesAreContents(s.right, len);
    }
  }

  /** A leaf on the left comes before one on the right. */
  lemma LeftBeforeRight(s: Shape, len: nat, x: CbNode, y: CbNode)
    requires s.Node? && WellFormed(s, len) && x in Leaves(s.left) && y in Leaves(s.right)
    ensures Less(x.key, y.key)
  {
    LeavesAreContents(s.left, len);
    LeavesAreContents(s.right, len);
    ContentsLength(s.left, len);
    ContentsLength(s.right, len);
    hide AgreeBefore, Branch, Contents, Less, Leaves;
    BranchOrders(x.key, y.key, s.byte, s.other);
  }

  lemma {:induction false} LeavesAscend(s: Shape, len: nat)
    requires WellFormed(s, len)
    ensures Ascending(Leaves(s))
  {
    hide Less, AgreeBefore, Branch, Contents;
    if s.Node? {
      LeavesAscend(s.left, len);
      LeavesAscend(s.right, len);
      var ls: seq<CbNode>, rs: seq<CbNode> := Leaves(s.left), Leaves(s.right);
      forall i, j | 0 <= i < |ls| <= j < |ls| + |rs|
        ensures Less((ls + rs)[i].key, (ls + rs)[j].key)
      {
        LeftBeforeRight(s, len, ls[i], rs[j - |ls|]);
      }
    }
  }

  ghost predicate HasPrefix(k: Key, pfx: Key) {
    |pfx| <= |k| && k[..|pfx|] == pfx
  }

  /** The subtree below the last branch that looks inside the prefix. */
  ghost function Top(s: Shape, pfx: Key): Shape {
    match s
    case Leaf(_) => s
    case Node(_, b, o, l, r) =>
      if b >= |pfx| then s
      else if Branch(pfx, b, o) then Top(r, pfx) else Top(l, pfx)
  }

  lemma {:induction false} TopIsPart(s: Shape, pfx: Key, len: nat)
    requires WellFormed(s, len)
    ensures WellFormed(Top(s, pfx), len) && Best(Top(s, pfx), pfx) == Best(s, pfx)
    ensures forall k | k in Contents(Top(s, pfx)) :: k in Contents(s) && Contents(s)[k] == Contents(Top(s, pfx))[k]
    ensures Top(s, pfx).Node? ==> Top(s, pfx).byte >= |pfx|
  {
    if s.Node? && s.byte < |pfx| {
      var side := Sub(s, Branch(pfx, s.byte, s.other));
      TopIsPart(side, pfx, len);
      forall k | k in Contents(side) ensures k in Contents(s) && Contents(s)[k] == Contents(side)[k] {
        if !Branch(pfx, s.byte, s.other) {
          assert k !in Contents(s.right);
        }
      }
    }
  }

  lemma {:induction false} PrefixedKeysAreBelowTop(s: Shape, pfx: Key, len: nat, k: Key)
    requires WellFormed(s, len) && k in Contents(s) && HasPrefix(k, pfx)
    ensures k in Contents(Top(s, pfx))
  {
    if s.Node? && s.byte < |pfx| {
      assert k[s.byte] == k[..|pfx|][s.byte];
      PrefixedKeysAreBelowTop(Sub(s, Branch(pfx, s.byte, s.other)), pfx, len, k);
    }
  }

  lemma KeysAgree(s: Shape, len: nat, x: Key, y: Key)
    requires s.Node? && WellFormed(s, len) && x in Contents(s) && y in Contents(s)
    ensures s.byte < len && |x| == |y| == len && AgreeBefore(x, y, s.byte, s.other)
  {
    hide AgreeBefore, Branch;
    ContentsLength(s, len);
  }

  lemma PrefixesAgree(x: Key, y: Key, byte: nat, other: bv8, pfx: Key)
    requires byte < |x| == |y| && AgreeBefore(x, y, byte, other) && |pfx| <= byte
    ensures HasPrefix(x, pfx) <==> HasPrefix(y, pfx)
  {
    hide Direction;
    assert x[..|pfx|] == y[..|pfx|];
  }

  lemma TopSharesPrefix(s: Shape, pfx: Key, len: nat, k: Key)
    requires WellFormed(s, len) && |pfx| <= len && k in Contents(Top(s, pfx))
    ensures HasPrefix(k, pfx) <==> HasPrefix(Best(s, pfx).key, pfx)
  {
    TopIsPart(s, pfx, len);
    var t, p := Top(s, pfx), Best(s, pfx).key;
    BestIsMember(t, pfx, len);
    ContentsLength(t, len);
    if t.Node? {
      KeysAgree(t, len, k, p);
      PrefixesAgree(k, p, t.byte, t.other, pfx);
    }
  }

  /** What `cb_each` must visit: exactly the members with the prefix, in ascending order. */
  ghost predicate ListsPrefixed(ns: seq<CbNode>, contents: map<Key, CbNode>, pfx: Key) {
    && Ascending(ns)
    && (forall n | n in ns :: n.key in contents && contents[n.key] == n && HasPrefix(n.key, pfx))
    && (forall k | k in contents && HasPrefix(k, pfx) :: contents[k] in ns)
  }

  lemma EmptyListsPrefixed(pfx: Key)
    ensures ListsPrefixed([], map[], pfx)
  {
  }

  /** The leaves below `Top` are the answer when the best match has the prefix; otherwise nothing is. */
  lemma TopListsPrefixed(s: Shape, pfx: Key, len: nat)
    requires WellFormed(s, len) && |pfx| <= len
    ensures HasPrefix(Best(s, pfx).key, pfx) ==> ListsPrefixed(Leaves(Top(s, pfx)), Contents(s), pfx)
    ensures !HasPrefix(Best(s, pfx).key, pfx) ==> ListsPrefixed([], Contents(s), pfx)
  {
    var t := Top(s, pfx);
    TopIsPart(s, pfx, len);
    LeavesAreContents(t, len);
    LeavesAscend(t, len);
    ContentsKeys(s);
    forall k | k in Contents(s) && HasPrefix(k, pfx)
      ensures Contents(s)[k] in Leaves(t) && HasPrefix(Best(s, pfx).key, pfx)
    {
      PrefixedKeysAreBelowTop(s, pfx, len, k);
      TopSharesPrefix(s, pfx, len, k);
    }
    forall n | n in Leaves(t) && HasPrefix(Best(s, pfx).key, pfx)
      ensures n.key in Contents(s) && Contents(s)[n.key] == n && HasPrefix(n.key, pfx)
    {
      TopSharesPrefix(s, pfx, len, n.key);
    }
  }

  // ---------- pointers ----------

  /** The pointer `p` and the child fields of the nodes `ns` below it spell out the shape `s`. */
  ghost predicate Holds(p: Ptr, s: Shape, ns: set<CbNode>)
    requires Inner(s) <= ns
    reads ns
    decreases s
  {
    match s
    case Leaf(n) => p == Ext(n)
    case Node(n, b, o, l, r) =>
      p == Int(n) && n.byte == b && n.otherbits == o && Holds(n.child0, l, ns) && Holds(n.child1, r, ns)
  }

  /** One step of a walk: what the tag bit and the fields of the node say about the shape. */
  lemma HoldsStep(p: Ptr, s: Shape, ns: set<CbNode>)
    requires Inner(s) <= ns && Holds(p, s, ns)
    ensures if p.Int?
            then s.Node? && s.n == p.node && s.n in ns && s.n.byte == s.byte && s.n.otherbits == s.other
              && Inner(s.left) <= ns && Inner(s.right) <= ns
              && Holds(s.n.child0, s.left, ns) && Holds(s.n.child1, s.right, ns)
            else s.Leaf? && p == Ext(s.n)
  {
  }

  /** The child slot that an insertion overwrites; Here stands for the pointer to `s` itself. */
  ghost function Slot(s: Shape, k: Key, byte: nat, other: bv8): Place {
    if StopsAt(s, byte, other) then Here
    else
      var d := Branch(k, s.byte, s.other);
      var below := Slot(Sub(s, d), k, byte, other);
      if below.Here? then ChildOf(s.n, d) else below
  }

  /** The same slot, remembered on the way down as the loop does with `wherep`. */
  ghost function SlotFrom(s: Shape, k: Key, byte: nat, other: bv8, above: Place): Place {
    if StopsAt(s, byte, other) then above
    else
      var d := Branch(k, s.byte, s.other);
      SlotFrom(Sub(s, d), k, byte, other, ChildOf(s.n, d))
  }

  lemma SlotFromStep(s: Shape, k: Key, byte: nat, other: bv8, above: Place)
    ensures SlotFrom(s, k, byte, other, above) ==
      if StopsAt(s, byte, other) then above
      else SlotFrom(Sub(s, Branch(k, s.byte, s.other)), k, byte, other, ChildOf(s.n, Branch(k, s.byte, s.other)))
  {
  }

  lemma {:induction false} SlotFromIsSlot(s: Shape, k: Key, byte: nat, other: bv8, above: Place)
    ensures SlotFrom(s, k, byte, other, above) ==
      if Slot(s, k, byte, other).Here? then above else Slot(s, k, byte, other)
    decreases s
  {
    if !StopsAt(s, byte, other) {
      var d := Branch(k, s.byte, s.other);
      SlotFromIsSlot(Sub(s, d), k, byte, other, ChildOf(s.n, d));
    }
  }

  lemma {:induction false} SlotIsInner(s: Shape, k: Key, byte: nat, other: bv8)
    ensures Slot(s, k, byte, other).ChildOf? ==> Slot(s, k, byte, other).holder in Inner(s)
  {
    if !StopsAt(s, byte, other) {
      SlotIsInner(Sub(s, Branch(k, s.byte, s.other)), k, byte, other);
    }
  }

  /** The four fields of a node as a value, and a snapshot of many nodes. */
  datatype Cell = Cell(child0: Ptr, child1: Ptr, byte: nat, otherbits: bv8) {
    ghost function Child(direction: bool): Ptr {
      if direction then child1 else child0
    }
  }

  type Snapshot = map<CbNode, Cell>

  ghost function Snap(ns: set<CbNode>): (h: Snapshot)
    reads ns
    ensures h.Keys == ns
  {
    map n | n in ns :: Cell(n.child0, n.child1, n.byte, n.otherbits)
  }

  /** `Holds`, told about a snapshot instead of the heap. */
  ghost predicate HoldsIn(h: Snapshot, p: Ptr, s: Shape)
    requires Inner(s) <= h.Keys
    decreases s
  {
    match s
    case Leaf(n) => p == Ext(n)
    case Node(n, b, o, l, r) =>
      p == Int(n) && h[n].byte == b && h[n].otherbits == o && HoldsIn(h, h[n].child0, l) && HoldsIn(h, h[n].child1, r)
  }

  lemma {:induction false} HoldsInSnap(ns: set<CbNode>, p: Ptr, s: Shape)
    requires Inner(s) <= ns
    ensures HoldsIn(Snap(ns), p, s) <==> Holds(p, s, ns)
    decreases s
  {
    if s.Node? {
      HoldsInSnap(ns, s.n.child0, s.left);
      HoldsInSnap(ns, s.n.child1, s.right);
    }
  }

  lemma {:induction false} HoldsInUnmoved(h: Snapshot, h': Snapshot, p: Ptr, s: Shape)
    requires Inner(s) <= h.Keys && Inner(s) <= h'.Keys && HoldsIn(h, p, s)
    requires forall m | m in Inner(s) :: h'[m] == h[m]
    ensures HoldsIn(h', p, s)
    decreases s
  {
    if s.Node? {
      HoldsInUnmoved(h, h', h[s.n].child0, s.left);
      HoldsInUnmoved(h, h', h[s.n].child1, s.right);
    }
  }

  /** The fields `c` of node `m` after the pointer at `place` was set to `n`. */
  ghost function Relinked(c: Cell, m: CbNode, place: Place, n: CbNode): Cell {
    if place == ChildOf(m, true) then c.(child1 := Int(n))
    else if place == ChildOf(m, false) then c.(child0 := Int(n))
    else c
  }

  /** `h'` is `h` with the new node filled in and the insertion slot redirected to it. */
  ghost predicate Redirected(h: Snapshot, h': Snapshot, p: Ptr, s: Shape, n: CbNode, byte: nat, other: bv8, d: bool)
    requires Inner(s) <= h.Keys && Inner(s) + {n} <= h'.Keys
  {
    var slot := Slot(s, n.key, byte, other);
    && h'[n].byte == byte && h'[n].otherbits == other && h'[n].Child(!d) == Ext(n)
    && (slot.Here? ==> h'[n].Child(d) == p)
    && (slot.ChildOf? && slot.holder in h ==> h'[n].Child(d) == h[slot.holder].Child(slot.side))
    && (forall m | m in Inner(s) :: h'[m] == Relinked(h[m], m, slot, n))
  }

  /** Redirecting that one slot to the new node makes the pointers spell out the spliced shape. */
  lemma {:induction false} SpliceHolds(h: Snapshot, h': Snapshot, p: Ptr, s: Shape, n: CbNode, byte: nat, other: bv8, d: bool)
    requires Inner(s) <= h.Keys && Inner(s) + {n} <= h'.Keys
    requires HoldsIn(h, p, s) && Distinct(s) && n !in Inner(s)
    requires Redirected(h, h', p, s, n, byte, other, d)
    ensures Inner(Splice(s, n, byte, other, d)) <= h'.Keys
    ensures HoldsIn(h', if Slot(s, n.key, byte, other).Here? then Int(n) else p, Splice(s, n, byte, other, d))
    decreases s
  {
    hide Direction, Branch, Greater;
    SpliceInner(s, n, byte, other, d);
    SlotIsInner(s, n.key, byte, other);
    if StopsAt(s, byte, other) {
      assert forall m | m in Inner(s) :: h'[m] == h[m];
      HoldsInUnmoved(h, h', p, s);
    } else {
      SpliceHoldsBelow(h, h', p, s, n, byte, other, d);
      var e := Branch(n.key, s.byte, s.other);
      SpliceHolds(h, h', h[s.n].Child(e), Sub(s, e), n, byte, other, d);
    }
  }

  lemma SpliceHoldsBelow(h: Snapshot, h': Snapshot, p: Ptr, s: Shape, n: CbNode, byte: nat, other: bv8, d: bool)
    requires Inner(s) <= h.Keys && Inner(s) + {n} <= h'.Keys
    requires HoldsIn(h, p, s) && Distinct(s) && n !in Inner(s) && !StopsAt(s, byte, other)
    requires Redirected(h, h', p, s, n, byte, other, d)
    ensures var e := Branch(n.key, s.byte, s.other);
      && HoldsIn(h, h[s.n].Child(e), Sub(s, e))
      && Redirected(h, h', h[s.n].Child(e), Sub(s, e), n, byte, other, d)
      && HoldsIn(h', h'[s.n].Child(!e), Sub(s, !e))
      && h'[s.n].byte == s.byte && h'[s.n].otherbits == s.other
      && h'[s.n].Child(e) == if Slot(Sub(s, e), n.key, byte, other).Here? then Int(n) else h[s.n].Child(e)
  {
    hide Direction, Branch, Greater;
    var e := Branch(n.key, s.byte, s.other);
    var slot, below := Slot(s, n.key, byte, other), Slot(Sub(s, e), n.key, byte, other);
    SlotIsInner(Sub(s, e), n.key, byte, other);
    assert slot == if below.Here? then ChildOf(s.n, e) else below;
    forall m | m in Inner(Sub(s, e)) ensures h'[m] == Relinked(h[m], m, below, n) {
      assert h'[m] == Relinked(h[m], m, slot, n);
    }
    forall m | m in Inner(Sub(s, !e)) ensures h'[m] == h[m] {
      assert h'[m] == Relinked(h[m], m, slot, n);
    }
    assert h'[s.n] == Relinked(h[s.n], s.n, slot, n);
    HoldsInUnmoved(h, h', h[s.n].Child(!e), Sub(s, !e));
  }

  // ---------- the tree ----------

  /** All keys of one tree have the same length `klen`, as the callers of cb_insert arrange. */
  class Tree {
    const klen: nat
    var root: Ptr
    ghost var shape: Option<Shape>
    ghost var repr: set<CbNode>  // the internal nodes

    ghost predicate Valid()
      reads this, repr
    {
      match shape
      case None => root == Nil && repr == {}
      case Some(s) =>
        && repr == Inner(s) && Holds(root, s, repr)
        && WellFormed(s, klen) && Distinct(s) && repr <= Contents(s).Values
    }

    ghost function Members(): map<Key, CbNode>
      reads this
    {
      if shape.Some? then Contents(shape.value) else map[]
    }

    constructor (klen: nat)
      ensures Valid() && Members() == map[] && this.klen == klen
    {
      this.klen := klen;
      root := Nil;
      shape, repr := None, {};
    }

    /** Locates the best match; does not compare the keys. */
    method BestMatch(start: Ptr, k: Key, ghost s: Shape, ghost ns: set<CbNode>) returns (p: Ptr)
      requires Inner(s) <= ns && Holds(start, s, ns)
      ensures p == Ext(Best(s, k))
    {
      p := start;
      ghost var t := s;
      while p.Int?
        invariant Inner(t) <= ns && Holds(p, t, ns) && Best(t, k) == Best(s, k)
        decreases t
      {
        var q := p.node;
        var direction := Branch(k, q.byte, q.otherbits);
        p := q.Child(direction);
        t := Sub(t, direction);
      }
    }

    /** Nil on success, the existing node when the key is already there. */
    method Insert(node: CbNode) returns (found: Ptr)
      requires Valid() && |node.key| == klen
      modifies this, node, repr
      ensures Valid()
      ensures old(node.key in Members()) ==>
        && found == Ext(old(Members()[node.key]))
        && unchanged(this) && unchanged(node) && unchanged(repr)
      ensures old(node.key !in Members()) ==> found == Nil && Members() == old(Members())[node.key := node]
    {
      if root == Nil {
        root := Ext(node);
        shape := Some(Leaf(node));
        return Nil;
      }
      ghost var s := shape.value;
      var p := BestMatch(root, node.key, s, repr);
      var other := p.node;
      BestIsMember(s, node.key, klen);
      ContentsLength(s, klen);

      hide WellFormed, Distinct, AgreeBefore, CritMask;
      var newbyte := 0;
      while newbyte < klen && other.key[newbyte] == node.key[newbyte]
        invariant newbyte <= klen && other.key[..newbyte] == node.key[..newbyte]
      {
        newbyte := newbyte + 1;
      }
      if newbyte == klen {
        assert other.key == node.key;
        BestFindsKey(s, node.key, klen);
        return p;
      }
      if node.key in Contents(s) {
        BestFindsKey(s, node.key, klen);
      }
      CritExists(node.key, other.key, newbyte);
      var newotherbits := CritMask(node.key[newbyte], other.key[newbyte]);
      ContentsKeys(s);
      assert node !in Inner(s);
      LinkIn(node, newbyte, newotherbits, Direction(newotherbits, other.key[newbyte]));
      found := Nil;
    }

    /** `*wherep`. */
    function At(wherep: Place): Ptr
      reads this, if wherep.ChildOf? then {wherep.holder} else {}
    {
      if wherep.Here? then root else wherep.holder.Child(wherep.side)
    }

    /** Walks to the pointer that the insertion overwrites. */
    method FindSlot(node: CbNode, newbyte: nat, newotherbits: bv8) returns (wherep: Place)
      requires shape.Some? && Inner(shape.value) <= repr && Holds(root, shape.value, repr) && |node.key| == klen
      ensures wherep == Slot(shape.value, node.key, newbyte, newotherbits)
      ensures wherep.ChildOf? ==> wherep.holder in repr
    {
      hide Slot, SlotFrom, Branch, Greater;
      ghost var s := shape.value;
      wherep := Here;
      var p := root;
      ghost var t := s;
      HoldsStep(p, t, repr);
      while p.Int? && !(p.node.byte > newbyte) && !(p.node.byte == newbyte && Greater(p.node.otherbits, newotherbits))
        invariant Inner(t) <= repr && Holds(p, t, repr)
        invariant p.Int? ==> t.Node? && t.n == p.node && t.n in repr && t.n.byte == t.byte && t.n.otherbits == t.other
        invariant p.Ext? ==> t.Leaf?
        invariant !p.Nil? && (wherep.ChildOf? ==> wherep.holder in repr)
        invariant p == At(wherep)
        invariant SlotFrom(t, node.key, newbyte, newotherbits, wherep) == SlotFrom(s, node.key, newbyte, newotherbits, Here)
        decreases t
      {
        SlotFromStep(t, node.key, newbyte, newotherbits, wherep);
        HoldsStep(p, t, repr);
        var q := p.node;
        var direction := Branch(node.key, q.byte, q.otherbits);
        wherep := ChildOf(q, direction);
        p := q.Child(direction);
        t := Sub(t, direction);
        HoldsStep(p, t, repr);
      }
      SlotFromStep(t, node.key, newbyte, newotherbits, wherep);
      SlotFromIsSlot(s, node.key, newbyte, newotherbits, Here);
    }

    /** `*wherep = node`, after the node took over what `*wherep` was. */
    method Redirect(node: CbNode, wherep: Place, newdirection: bool)
      requires node !in repr && (wherep.ChildOf? ==> wherep.holder in repr) && node.Child(!newdirection) == Ext(node)
      modifies this`root, node, repr
      ensures root == if wherep.Here? then Int(node) else old(root)
      ensures var h, h' := old(Snap(repr)), Snap(repr + {node});
        && h'[node] == (if newdirection then Cell(Ext(node), old(At(wherep)), old(node.byte), old(node.otherbits))
                        else Cell(old(At(wherep)), Ext(node), old(node.byte), old(node.otherbits)))
        && (forall m | m in repr :: h'[m] == Relinked(h[m], m, wherep, node))
    {
      node.SetChild(newdirection, At(wherep));
      if wherep.Here? {
        root := Int(node);
      } else {
        wherep.holder.SetChild(wherep.side, Int(node));
      }
    }

    /** Fill the node in, find the slot and redirect it; `h` is the snapshot before. */
    method Fill(node: CbNode, newbyte: nat, newotherbits: bv8, newdirection: bool) returns (ghost h: Snapshot)
      requires shape.Some? && Inner(shape.value) == repr && Holds(root, shape.value, repr)
      requires node !in repr && |node.key| == klen
      modifies this`root, node, repr
      ensures h.Keys == repr && HoldsIn(h, old(root), shape.value)
      ensures Redirected(h, Snap(repr + {node}), old(root), shape.value, node, newbyte, newotherbits, newdirection)
      ensures root == if Slot(shape.value, node.key, newbyte, newotherbits).Here? then Int(node) else old(root)
    {
      hide Slot, Holds, HoldsIn, Inner;
      node.byte := newbyte;
      node.otherbits := newotherbits;
      node.SetChild(!newdirection, Ext(node));
      var wherep := FindSlot(node, newbyte, newotherbits);
      h := Snap(repr);
      HoldsInSnap(repr, root, shape.value);
      Redirect(node, wherep, newdirection);
    }

    /** The second half of cb_insert. */
    method LinkIn(node: CbNode, newbyte: nat, newotherbits: bv8, newdirection: bool)
      requires Valid() && |node.key| == klen && shape.Some?
      requires node !in repr && node.key !in Members()
      requires Crit(node.key, Best(shape.value, node.key).key, newbyte, newotherbits)
      requires newdirection == Branch(Best(shape.value, node.key).key, newbyte, newotherbits)
      modifies this, node, repr
      ensures Valid() && Members() == old(Members())[node.key := node]
    {
      hide WellFormed, Distinct, Crit, Branch, Splice, Slot, Contents, Best, Holds, HoldsIn, Inner, StopsAt, Redirected;
      ghost var s, before := shape.value, root;
      ghost var h := Fill(node, newbyte, newotherbits, newdirection);
      Spliced(h, Snap(repr + {node}), before, s, node, klen, newbyte, newotherbits);
      repr := repr + {node};
      shape := Some(Splice(s, node, newbyte, newotherbits, newdirection));
      HoldsInSnap(repr, root, shape.value);
    }

    /** Everything that linking the node in does to the shape. */
    static lemma Spliced(h: Snapshot, h': Snapshot, p: Ptr, s: Shape, n: CbNode, len: nat, byte: nat, other: bv8)
      requires WellFormed(s, len) && Distinct(s) && |n.key| == len && n !in Inner(s) && n.key !in Contents(s)
      requires Crit(n.key, Best(s, n.key).key, byte, other) && Inner(s) <= Contents(s).Values
      requires Inner(s) <= h.Keys && Inner(s) + {n} <= h'.Keys && HoldsIn(h, p, s)
      requires Redirected(h, h', p, s, n, byte, other, Branch(Best(s, n.key).key, byte, other))
      ensures var t := Splice(s, n, byte, other, Branch(Best(s, n.key).key, byte, other));
        && WellFormed(t, len) && Distinct(t) && Contents(t) == Contents(s)[n.key := n]
        && Inner(t) == Inner(s) + {n} && Inner(t) <= Contents(t).Values
        && HoldsIn(h', if Slot(s, n.key, byte, other).Here? then Int(n) else p, t)
    {
      hide Crit, Branch, Splice, WellFormed, Redirected, Slot, HoldsIn;
      var d := Branch(Best(s, n.key).key, byte, other);
      SpliceWellFormed(s, n, len, byte, other);
      SpliceInner(s, n, byte, other, d);
      SpliceHolds(h, h', p, s, n, byte, other, d);
      MembersKeepInner(s, n, byte, other, d);
    }

    static lemma MembersKeepInner(s: Shape, n: CbNode, byte: nat, other: bv8, d: bool)
      requires Inner(s) <= Contents(s).Values && n.key !in Contents(s)
      requires Contents(Splice(s, n, byte, other, d)) == Contents(s)[n.key := n]
      requires Inner(Splice(s, n, byte, other, d)) == Inner(s) + {n}
      ensures Inner(Splice(s, n, byte, other, d)) <= Contents(Splice(s, n, byte, other, d)).Values
    {
      var m, m' := Contents(s), Contents(s)[n.key := n];
      forall x | x in Inner(s) + {n} ensures x in m'.Values {
        if x == n {
          assert m'[n.key] == n;
        } else {
          var k :| k in m && m[k] == x;
          assert m'[k] == x;
        }
      }
    }

    method Lookup(k: Key) returns (found: Ptr)
      requires Valid() && |k| == klen
      ensures found == if k in Members() then Ext(Members()[k]) else Nil
    {
      if root == Nil {
        return Nil;
      }
      ghost var s := shape.value;
      var p := BestMatch(root, k, s, repr);
      BestIsMember(s, k, klen);
      if k in Contents(s) {
        BestFindsKey(s, k, klen);
      }
      found := if p.node.key == k then p else Nil;
    }

    /** Calls `fn` on the leaves below `p` until it answers nonzero. */
    method Descend(p: Ptr, fn: CbNode -> int, ghost s: Shape, ghost ns: set<CbNode>) returns (ret: int, visited: seq<CbNode>)
      requires Inner(s) <= ns && Holds(p, s, ns)
      ensures visited != [] && visited <= Leaves(s)
      ensures forall i | 0 <= i < |visited| - 1 :: fn(visited[i]) == 0
      ensures fn(visited[|visited| - 1]) == ret
      ensures ret == 0 ==> visited == Leaves(s)
      decreases s
    {
      if p.Int? {
        ret, visited := Descend(p.node.child0, fn, s.left, ns);
        if ret != 0 {
          return;
        }
        var more;
        ret, more := Descend(p.node.child1, fn, s.right, ns);
        assert forall i | 0 <= i < |visited| :: fn(visited[i]) == 0;
        visited := visited + more;
      } else {
        ret, visited := fn(p.node), [p.node];
      }
    }

    /** The walk of cb_each: down to a leaf, remembering the subtree below the last branch inside `pfx`. */
    method FindTop(pfx: Key) returns (p: Ptr, top: Ptr, ghost u: Shape)
      requires Valid() && shape.Some?
      ensures p == Ext(Best(shape.value, pfx)) && u == Top(shape.value, pfx)
      ensures Inner(u) <= repr && Holds(top, u, repr)
    {
      hide Discriminates, Distinct, Direction, Contents;
      ghost var s := shape.value;
      p, top := root, root;
      u := s;
      ghost var t := s;
      while p.Int?
        invariant Inner(t) <= repr && Holds(p, t, repr)
        invariant Inner(u) <= repr && Holds(top, u, repr)
        invariant Best(t, pfx) == Best(s, pfx) && Top(s, pfx) == Top(u, pfx)
        invariant WellFormed(t, klen)
        invariant u == t || (u.Node? && u.byte >= |pfx| && (t.Node? ==> t.byte >= |pfx|))
        decreases t
      {
        var q := p.node;
        var direction := Branch(pfx, q.byte, q.otherbits);
        p := q.Child(direction);
        if q.byte < |pfx| {
          top := p;
          u := Sub(t, direction);
        }
        t := Sub(t, direction);
      }
    }

    method StartsWith(k: Key, pfx: Key) returns (b: bool)
      requires |pfx| <= |k|
      ensures b <==> HasPrefix(k, pfx)
    {
      var i := 0;
      while i < |pfx|
        invariant i <= |pfx| && k[..i] == pfx[..i]
      {
        if k[i] != pfx[i] {
          assert k[..|pfx|][i] != pfx[i];
          return false;
        }
        i := i + 1;
      }
      return true;
    }

    /**
     Visits the members that start with `pfx`.  `all` is the complete ascending list of them;
     the calls made are a prefix of it, cut short only by a nonzero answer, which is returned.
     */
    method Each(pfx: Key, fn: CbNode -> int) returns (ret: int, visited: seq<CbNode>, ghost all: seq<CbNode>)
      requires Valid() && |pfx| <= klen
      ensures ListsPrefixed(all, Members(), pfx)
      ensures visited <= all
      ensures forall i | 0 <= i < |visited| - 1 :: fn(visited[i]) == 0
      ensures ret == 0 ==> visited == all && forall n | n in all :: fn(n) == 0
      ensures ret != 0 ==> visited != [] && fn(visited[|visited| - 1]) == ret
    {
      hide WellFormed, Distinct, ListsPrefixed, HasPrefix, Top, Inner, Contents, Best, Leaves;
      if root == Nil {
        EmptyListsPrefixed(pfx);
        return 0, [], [];
      }
      var p, top, u := FindTop(pfx);
      TopListsPrefixed(shape.value, pfx, klen);
      BestIsMember(shape.value, pfx, klen);
      ContentsLength(shape.value, klen);
      var matches := StartsWith(p.node.key, pfx);
      if !matches {
        assert ListsPrefixed([], Members(), pfx);
        return 0, [], [];
      }
      ret, visited := Descend(top, fn, u, repr);
      all := Leaves(u);
    }
  }
}
