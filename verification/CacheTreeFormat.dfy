/**
 The on-disk form of the cache tree in cache-tree.c: what write_one writes, read_one reads back.
 */
module CacheTreeFormat {
  import opened CacheTree
  import opened Wrappers

  // ---------- numbers ----------

  predicate IsDigit(c: char) {
    '0' <= c <= '9'
  }

  /** A number as "%d" prints it. */
  function Digits(n: nat): string {
    if n < 10 then ['0' + n as char] else Digits(n / 10) + ['0' + (n % 10) as char]
  }

  function Decimal(n: int): string {
    if n < 0 then "-" + Digits(-n) else Digits(n)
  }

  /** The number that digits stand for. */
  function NumberOf(s: string): int {
    if s == "" then 0 else NumberOf(s[..|s| - 1]) * 10 + (s[|s| - 1] as int - '0' as int)
  }

  lemma {:induction false} DigitsMean(n: nat)
    ensures NumberOf(Digits(n)) == n && Digits(n) != "" && forall i | 0 <= i < |Digits(n)| :: IsDigit(Digits(n)[i])
  {
    if n >= 10 {
      DigitsMean(n / 10);
      var d := Digits(n);
      assert d[..|d| - 1] == Digits(n / 10);
    } else {
      var d := Digits(n);
      assert d[..0] == "";
    }
  }

  /** `s` stands in the buffer at `pos`. */
  ghost predicate At(buf: string, pos: nat, s: string) {
    pos + |s| <= |buf| && buf[pos..pos + |s|] == s
  }

  lemma AtParts(buf: string, pos: nat, a: string, b: string)
    ensures At(buf, pos, a + b) <==> At(buf, pos, a) && At(buf, pos + |a|, b)
  {
    if At(buf, pos, a + b) {
      assert buf[pos..pos + |a|] == (a + b)[..|a|];
      assert buf[pos + |a|..pos + |a| + |b|] == buf[pos..pos + |a + b|][|a|..];
    }
    if At(buf, pos, a) && At(buf, pos + |a|, b) {
      assert buf[pos..pos + |a + b|] == buf[pos..pos + |a|] + buf[pos + |a|..pos + |a| + |b|];
    }
  }

  /** parse_int, with any number of signs. `n` and `end` are what stands there, if a number does. */
  method ParseInt(buf: string, pos: nat, ghost n: int, ghost end: char) returns (ok: bool, next: nat, out: int)
    requires pos <= |buf|
    ensures ok ==> pos < next <= |buf|
    ensures At(buf, pos, Decimal(n) + [end]) && !IsDigit(end) ==> ok && out == n && next == pos + |Decimal(n)|
  {
    hide Digits, NumberOf;
    ghost var there := At(buf, pos, Decimal(n) + [end]) && !IsDigit(end);
    var s, ret, sign := pos, 0, 1;
    ghost var start := if n < 0 then pos + 1 else pos;
    ghost var d := Digits(if n < 0 then -n else n);
    DigitsMean(if n < 0 then -n else n);
    if there {
      DecimalAt(buf, pos, n, end);
    }
    while s < |buf| && buf[s] == '-'
      invariant pos <= s <= |buf|
      invariant there ==> s <= start && sign == (if s == pos then 1 else -1)
      invariant there && n < 0 && s == pos ==> buf[s] == '-'
    {
      sign := sign * -1;
      s := s + 1;
    }
    ghost var first := s;
    assert there ==> s == start;
    assert buf[first..s] == "";
    NoDigits();
    while s < |buf| && IsDigit(buf[s])
      invariant first <= s <= |buf| && ret == NumberOf(buf[first..s])
      invariant there ==> s <= start + |d|
    {
      assert buf[first..s + 1][..s - first] == buf[first..s];
      MoreDigits(buf[first..s + 1]);
      ret := ret * 10 + (buf[s] as int - '0' as int);
      s := s + 1;
    }
    assert there ==> s == start + |d| && buf[first..s] == d;
    if s == pos {
      return false, pos, 0;
    }
    ok, next, out := true, s, sign * ret;
  }

  lemma NoDigits()
    ensures NumberOf("") == 0
  {
  }

  lemma MoreDigits(s: string)
    requires s != ""
    ensures NumberOf(s) == NumberOf(s[..|s| - 1]) * 10 + (s[|s| - 1] as int - '0' as int)
  {
  }

  /** Where the parts of a number stand. */
  lemma DecimalAt(buf: string, pos: nat, n: int, end: char)
    requires At(buf, pos, Decimal(n) + [end])
    ensures var d, start := Digits(if n < 0 then -n else n), if n < 0 then pos + 1 else pos;
      && start + |d| < |buf| && (n < 0 ==> buf[pos] == '-') && |Decimal(n)| == start - pos + |d|
      && buf[start..start + |d|] == d && buf[start + |d|] == end
      && forall i | 0 <= i < |d| :: buf[start + i] == d[i]
  {
    hide Digits;
    var d, start := Digits(if n < 0 then -n else n), if n < 0 then pos + 1 else pos;
    AtParts(buf, pos, Decimal(n), [end]);
    assert buf[start + |d|..start + |d| + 1] == [end];
    if n < 0 {
      AtParts(buf, pos, "-", d);
      assert buf[pos..pos + 1] == "-";
    }
    forall i | 0 <= i < |d| ensures buf[start + i] == d[i] {
      assert buf[start..start + |d|][i] == d[i];
    }
  }

  // ---------- what is written ----------

  function Header(t: DirTree, name: string): string {
    name + "\0" + Decimal(t.entryCount) + " " + Decimal(|t.down|) + "\n" + if t.entryCount >= 0 then t.oid else ""
  }

  /** The bytes of a tree under a name. */
  function Encoded(t: DirTree, name: string): string
    decreases t, |t.down| + 1
  {
    Header(t, name) + EncodedSubs(t, |t.down|)
  }

  function EncodedSubs(t: DirTree, k: nat): string
    requires k <= |t.down|
    decreases t, k
  {
    if k == 0 then "" else EncodedSubs(t, k - 1) + Encoded(t.down[k - 1].tree, t.down[k - 1].name)
  }

  /** Each name comes after the one before it, here and in all subtrees. */
  ghost predicate Ordered(t: DirTree, k: nat)
    requires k <= |t.down|
    decreases t, k
  {
    k == 0 || (Ordered(t, k - 1) && InOrderAt(t.down, k - 1) && Ordered(t.down[k - 1].tree, |t.down[k - 1].tree.down|))
  }

  ghost predicate InOrderAt(down: seq<Sub>, i: nat)
    requires i < |down|
  {
    i > 0 ==> NameCmp(down[i].name, down[i - 1].name) > 0
  }

  class Buffer {
    var data: string

    constructor ()
      ensures data == ""
    {
      data := "";
    }

    method Add(s: string)
      modifies this
      ensures data == old(data) + s
    {
      data := data + s;
    }
  }

  /** write_one: it stops at a subtree that is out of order, and writes the tree if none is. */
  method WriteOne(buffer: Buffer, it: DirTree, path: string) returns (ok: bool)
    modifies buffer
    ensures ok <==> Ordered(it, |it.down|)
    ensures ok ==> buffer.data == old(buffer.data) + Encoded(it, path)
    decreases it
  {
    hide Decimal, NameCmp, Encoded, EncodedSubs, Ordered;
    buffer.Add(path);
    buffer.Add("\0" + Decimal(it.entryCount) + " " + Decimal(|it.down|) + "\n");
    if 0 <= it.entryCount {
      buffer.Add(it.oid);
    }
    ghost var start := old(buffer.data) + Header(it, path);
    assert buffer.data == start;
    WriteStarts(it, path);
    for i := 0 to |it.down|
      invariant Ordered(it, i) && buffer.data == start + EncodedSubs(it, i)
    {
      var down := it.down[i];
      WriteStep(it, i);
      if i > 0 {
        var prev := it.down[i - 1];
        if NameCmp(down.name, prev.name) <= 0 {
          NotOrdered(it, i, |it.down|);
          return false;
        }
      }
      var written := WriteOne(buffer, down.tree, down.name);
      if !written {
        NotOrdered(it, i, |it.down|);
        return false;
      }
    }
    ok := true;
  }

  lemma WriteStarts(t: DirTree, path: string)
    ensures Ordered(t, 0) && EncodedSubs(t, 0) == "" && Encoded(t, path) == Header(t, path) + EncodedSubs(t, |t.down|)
  {
  }

  lemma WriteStep(t: DirTree, i: nat)
    requires i < |t.down|
    ensures Ordered(t, i + 1) <==> Ordered(t, i) && InOrderAt(t.down, i) && Ordered(t.down[i].tree, |t.down[i].tree.down|)
    ensures EncodedSubs(t, i + 1) == EncodedSubs(t, i) + Encoded(t.down[i].tree, t.down[i].name)
  {
  }

  lemma {:induction false} NotOrdered(t: DirTree, i: nat, k: nat)
    requires i < k <= |t.down| && !(InOrderAt(t.down, i) && Ordered(t.down[i].tree, |t.down[i].tree.down|))
    ensures !Ordered(t, k)
  {
    if k - 1 > i {
      NotOrdered(t, i, k - 1);
    }
  }

  // ---------- reading it back ----------

  /** A tree that can be written: names without NUL, in order, and hashes of the right length. */
  ghost predicate Writable(t: DirTree, rawsz: nat)
    decreases t
  {
    && SubsSorted(t.down) && (t.entryCount >= 0 ==> |t.oid| == rawsz)
    && forall i | 0 <= i < |t.down| :: NoNul(t.down[i].name) && Writable(t.down[i].tree, rawsz)
  }

  ghost predicate NoNul(s: string) {
    forall i | 0 <= i < |s| :: s[i] != '\0'
  }

  /** The tree without the hashes of invalid nodes, which are not written. */
  function Plain(t: DirTree): DirTree
    decreases t, |t.down| + 1
  {
    DirTree(t.entryCount, if t.entryCount >= 0 then t.oid else NULL_OID, PlainSubs(t, |t.down|))
  }

  function PlainSubs(t: DirTree, k: nat): (r: seq<Sub>)
    requires k <= |t.down|
    ensures |r| == k && forall i | 0 <= i < k :: r[i].name == t.down[i].name
    decreases t, k
  {
    if k == 0 then [] else PlainSubs(t, k - 1) + [Sub(t.down[k - 1].name, Plain(t.down[k - 1].tree))]
  }

  /** Names in a tree that was read are always in order. */
  ghost predicate AllSorted(t: DirTree)
    decreases t
  {
    SubsSorted(t.down) && forall i | 0 <= i < |t.down| :: AllSorted(t.down[i].tree)
  }

  /** The part of a subtree's name before the NUL. */
  method ReadName(buf: string, pos: nat, ghost name: string) returns (end: nat)
    requires pos <= |buf|
    ensures pos <= end <= |buf| && (end < |buf| ==> buf[end] == '\0')
    ensures NoNul(name) && At(buf, pos, name + ['\0']) ==> end == pos + |name| && buf[pos..end] == name && end < |buf|
  {
    end := pos;
    ghost var there := NoNul(name) && At(buf, pos, name + ['\0']);
    if there {
      AtOne(buf, pos, name, '\0');
      AtParts(buf, pos, name, ['\0']);
    }
    assert there ==> forall i | pos <= i < pos + |name| :: buf[i] == buf[pos..pos + |name|][i - pos];
    while end < |buf| && buf[end] != '\0'
      invariant pos <= end <= |buf| && (there ==> end <= pos + |name|)
    {
      end := end + 1;
    }
  }

  lemma AtOne(buf: string, pos: nat, a: string, c: char)
    requires At(buf, pos, a + [c])
    ensures pos + |a| < |buf| && buf[pos + |a|] == c
  {
    AtParts(buf, pos, a, [c]);
    assert buf[pos + |a|..pos + |a| + 1][0] == c;
  }

  /** Where the parts of a head stand. */
  lemma HeaderParts(buf: string, pos: nat, t: DirTree, name: string)
    requires At(buf, pos, Header(t, name))
    ensures var count, nr, hash := Decimal(t.entryCount), Decimal(|t.down|), if t.entryCount >= 0 then t.oid else "";
      var p2 := pos + |name| + 1; var p3 := p2 + |count| + 1; var p4 := p3 + |nr| + 1;
      && At(buf, pos, name + ['\0']) && At(buf, p2, count + [' ']) && At(buf, p3, nr + ['\n'])
      && pos + |name| < |buf| && p2 + |count| < |buf| && p3 + |nr| < |buf| && buf[p2 + |count|] == ' ' && buf[p3 + |nr|] == '\n'
      && p4 + |hash| <= |buf| && buf[p4..p4 + |hash|] == hash && pos + |Header(t, name)| == p4 + |hash|
  {
    hide Decimal;
    var count, nr, hash := Decimal(t.entryCount), Decimal(|t.down|), if t.entryCount >= 0 then t.oid else "";
    var p2 := pos + |name| + 1;
    var p3 := p2 + |count| + 1;
    var a, b, c := name + ['\0'], count + [' '], nr + ['\n'];
    assert Header(t, name) == a + (b + (c + hash));
    AtParts(buf, pos, a, b + (c + hash));
    AtParts(buf, p2, b, c + hash);
    AtParts(buf, p3, c, hash);
    AtOne(buf, pos, name, '\0');
    AtOne(buf, p2, count, ' ');
    AtOne(buf, p3, nr, '\n');
  }

  /** The head of a node: its name, its counts and its hash. */
  method ReadHead(buf: string, pos: nat, rawsz: nat, ghost t: DirTree, ghost name: string)
    returns (ok: bool, next: nat, entryCount: int, oid: Oid, subtreeNr: int)
    requires pos <= |buf|
    ensures ok ==> pos < next <= |buf|
    ensures NoNul(name) && (t.entryCount >= 0 ==> |t.oid| == rawsz) && At(buf, pos, Header(t, name)) ==>
      ok && next == pos + |Header(t, name)| && entryCount == t.entryCount && subtreeNr == |t.down| && oid == Plain(t).oid
  {
    hide Decimal, At, NoNul;
    ghost var count, nr, hash := Decimal(t.entryCount), Decimal(|t.down|), if t.entryCount >= 0 then t.oid else "";
    ghost var there := NoNul(name) && (t.entryCount >= 0 ==> |t.oid| == rawsz) && At(buf, pos, Header(t, name));
    if there {
      HeaderParts(buf, pos, t, name);
    }
    ok, next, entryCount, oid, subtreeNr := false, pos, -1, NULL_OID, 0;
    var s := ReadName(buf, pos, name);
    if s == |buf| {
      return;
    }
    s := s + 1;
    var parsed;
    parsed, s, entryCount := ParseInt(buf, s, t.entryCount, ' ');
    if !parsed || s == |buf| || buf[s] != ' ' {
      return;
    }
    s := s + 1;
    parsed, s, subtreeNr := ParseInt(buf, s, |t.down|, '\n');
    if !parsed || s == |buf| || buf[s] != '\n' {
      return;
    }
    s := s + 1;
    if 0 <= entryCount {
      if |buf| - s < rawsz {
        return;
      }
      oid := buf[s..s + rawsz];
      s := s + rawsz;
    }
    ok, next := true, s;
  }

  /** The first `i` subtrees of `t` have been read, from `start` up to `s`. */
  ghost predicate SoFar(buf: string, rawsz: nat, t: DirTree, start: nat, s: nat, i: int, down: seq<Sub>) {
    && Writable(t, rawsz) && 0 <= i <= |t.down| && At(buf, start, EncodedSubs(t, |t.down|))
    && s == start + |EncodedSubs(t, i)| && down == PlainSubs(t, i)
  }

  /** A tree is there, and its head has been read. */
  lemma HeadIsRead(buf: string, rawsz: nat, t: DirTree, name: string, pos: nat)
    requires NoNul(name) && Writable(t, rawsz) && At(buf, pos, Encoded(t, name))
    ensures At(buf, pos, Header(t, name)) && (t.entryCount >= 0 ==> |t.oid| == rawsz)
    ensures SoFar(buf, rawsz, t, pos + |Header(t, name)|, pos + |Header(t, name)|, 0, [])
  {
    hide Header, At, NoNul, SubsSorted;
    AtParts(buf, pos, Header(t, name), EncodedSubs(t, |t.down|));
  }

  lemma SubIsNext(buf: string, rawsz: nat, t: DirTree, start: nat, s: nat, i: int, down: seq<Sub>)
    requires SoFar(buf, rawsz, t, start, s, i, down) && i < |t.down|
    ensures var sub := t.down[i];
      NoNul(sub.name) && Writable(sub.tree, rawsz) && At(buf, s, Encoded(sub.tree, sub.name)) && At(buf, s, sub.name + ['\0'])
  {
    hide At, NoNul, SubsSorted, Encoded, EncodedSubs, PlainSubs;
    SubAt(buf, start, t, i);
    EncodedStarts(buf, s, t.down[i].tree, t.down[i].name);
  }

  lemma SubIsRead(buf: string, rawsz: nat, t: DirTree, start: nat, s: nat, i: int, down: seq<Sub>, grown: seq<Sub>, at: nat)
    requires SoFar(buf, rawsz, t, start, s, i, down) && i < |t.down| && at < |grown|
    requires HasSub(down, t.down[i].name) ==> grown == down
    requires !HasSub(down, t.down[i].name) ==>
      BelongsAt(down, t.down[i].name, at) && grown == Inserted(down, at, Sub(t.down[i].name, EMPTY_TREE))
    ensures var sub := t.down[i];
      SoFar(buf, rawsz, t, start, s + |Encoded(sub.tree, sub.name)|, i + 1, grown[at := grown[at].(tree := Plain(sub.tree))])
  {
    hide At, NoNul, NameCmp, HasSub, BelongsAt, Inserted, Encoded, Plain;
    SubAt(buf, start, t, i);
    GoesLast(t, i, down, grown, at);
  }

  lemma TreeIsRead(buf: string, rawsz: nat, t: DirTree, name: string, start: nat, s: nat, i: int, down: seq<Sub>)
    requires SoFar(buf, rawsz, t, start, s, i, down) && i == |t.down|
    ensures |down| == i && DirTree(t.entryCount, Plain(t).oid, down) == Plain(t)
    ensures s - start + |Header(t, name)| == |Encoded(t, name)|
  {
    hide At, Header, Writable;
  }

  /** read_one: what it reads is in order, and what was written is read back whole. */
  method ReadOne(buf: string, pos: nat, rawsz: nat, ghost t: DirTree, ghost name: string) returns (it: Option<DirTree>, next: nat)
    requires pos <= |buf|
    ensures it.Some? ==> pos < next <= |buf| && AllSorted(it.value)
    ensures NoNul(name) && Writable(t, rawsz) && At(buf, pos, Encoded(t, name)) ==>
      it == Some(Plain(t)) && next == pos + |Encoded(t, name)|
    decreases |buf| - pos
  {
    hide Header, At, NameCmp, NoNul, SubsSorted, Encoded, EncodedSubs, Plain, PlainSubs, Writable, SoFar;
    ghost var there := NoNul(name) && Writable(t, rawsz) && At(buf, pos, Encoded(t, name));
    if there {
      HeadIsRead(buf, rawsz, t, name, pos);
    }
    var ok, s, entryCount, oid, subtreeNr := ReadHead(buf, pos, rawsz, t, name);
    if !ok {
      return None, pos;
    }
    ghost var start := s;
    var down: seq<Sub> := [];
    EmptySorted();
    var i := 0;
    while i < subtreeNr
      invariant 0 <= i && pos < s <= |buf| && SubsSorted(down) && forall k | 0 <= k < |down| :: AllSorted(down[k].tree)
      invariant there ==> subtreeNr == |t.down| && SoFar(buf, rawsz, t, start, s, i, down) && i <= subtreeNr
      decreases subtreeNr - i
    {
      ghost var sub := if there then t.down[i] else Sub("", EMPTY_TREE);
      if there {
        SubIsNext(buf, rawsz, t, start, s, i, down);
      }
      var end := ReadName(buf, s, sub.name);
      var subname := buf[s..end];
      var read, after := ReadOne(buf, s, rawsz, sub.tree, sub.name);
      if read.None? {
        return None, pos;
      }
      var grown, at := FindOrCreate(down, subname);
      if there {
        SubIsRead(buf, rawsz, t, start, s, i, down, grown, at);
      }
      ghost var before := down;
      down := grown[at := grown[at].(tree := read.value)];
      StaysSorted(before, grown, at, read.value);
      s := after;
      i := i + 1;
    }
    if there {
      TreeIsRead(buf, rawsz, t, name, start, s, i, down);
    }
    if subtreeNr != |down| {
      return None, pos;
    }
    it, next := Some(DirTree(entryCount, oid, down)), s;
  }

  lemma EmptySorted()
    ensures SubsSorted([])
  {
  }

  /** Where the bytes of a subtree stand. */
  lemma {:induction false} SubAt(buf: string, start: nat, t: DirTree, i: nat)
    requires i < |t.down| && At(buf, start, EncodedSubs(t, |t.down|))
    ensures At(buf, start + |EncodedSubs(t, i)|, Encoded(t.down[i].tree, t.down[i].name))
    ensures |EncodedSubs(t, i + 1)| == |EncodedSubs(t, i)| + |Encoded(t.down[i].tree, t.down[i].name)|
  {
    hide At, Encoded, EncodedSubs;
    WriteStep(t, i);
    PartAt(buf, start, t, i + 1, |t.down|);
    AtParts(buf, start, EncodedSubs(t, i), Encoded(t.down[i].tree, t.down[i].name));
  }

  lemma {:induction false} PartAt(buf: string, start: nat, t: DirTree, i: nat, k: nat)
    requires i <= k <= |t.down| && At(buf, start, EncodedSubs(t, k))
    ensures At(buf, start, EncodedSubs(t, i))
    decreases k
  {
    hide At, Encoded, EncodedSubs;
    if i < k {
      WriteStep(t, k - 1);
      AtParts(buf, start, EncodedSubs(t, k - 1), Encoded(t.down[k - 1].tree, t.down[k - 1].name));
      PartAt(buf, start, t, i, k - 1);
    }
  }

  /** The bytes of a tree start with its name. */
  lemma EncodedStarts(buf: string, pos: nat, t: DirTree, name: string)
    requires At(buf, pos, Encoded(t, name))
    ensures At(buf, pos, name + ['\0'])
  {
    hide At, Decimal;
    AtParts(buf, pos, Header(t, name), EncodedSubs(t, |t.down|));
    HeaderParts(buf, pos, t, name);
  }

  /** Subtrees that come in order are added at the end. */
  lemma GoesLast(t: DirTree, i: nat, down: seq<Sub>, grown: seq<Sub>, at: nat)
    requires i < |t.down| && SubsSorted(t.down) && down == PlainSubs(t, i) && at < |grown|
    requires HasSub(down, t.down[i].name) ==> grown == down
    requires !HasSub(down, t.down[i].name) ==>
      BelongsAt(down, t.down[i].name, at) && grown == Inserted(down, at, Sub(t.down[i].name, EMPTY_TREE))
    ensures at == i && grown == down + [Sub(t.down[i].name, EMPTY_TREE)]
  {
    hide NameCmp;
    var name := t.down[i].name;
    assert forall k | 0 <= k < i :: down[k].name == t.down[k].name && NameCmp(t.down[k].name, t.down[i].name) < 0;
    NameCmpIsOrder(name, name, name);
    if !HasSub(down, name) && at < i {
      NameCmpIsOrder(name, down[at].name, name);
    }
  }

  lemma StaysSorted(down: seq<Sub>, grown: seq<Sub>, at: nat, tree: DirTree)
    requires SubsSorted(grown) && at < |grown| && AllSorted(tree) && forall k | 0 <= k < |down| :: AllSorted(down[k].tree)
    requires forall k | 0 <= k < |grown| && k != at :: grown[k] in down
    ensures var r := grown[at := grown[at].(tree := tree)]; SubsSorted(r) && forall k | 0 <= k < |r| :: AllSorted(r[k].tree)
  {
    hide NameCmp;
    var r := grown[at := grown[at].(tree := tree)];
    assert forall k | 0 <= k < |r| :: r[k].name == grown[k].name;
  }

  lemma {:induction false} SortedIsOrdered(t: DirTree, rawsz: nat, k: nat)
    requires Writable(t, rawsz) && k <= |t.down|
    ensures Ordered(t, k)
    decreases t, k
  {
    hide NameCmp;
    if k > 0 {
      SortedIsOrdered(t, rawsz, k - 1);
      SortedIsOrdered(t.down[k - 1].tree, rawsz, |t.down[k - 1].tree.down|);
      if k > 1 {
        NameCmpIsOrder(t.down[k - 2].name, t.down[k - 1].name, t.down[k - 1].name);
      }
    }
  }

  /** Writing a tree and reading it gives the tree, and uses up all that was written. */
  method RoundTrip(t: DirTree, rawsz: nat) returns (back: Option<DirTree>)
    requires Writable(t, rawsz)
    ensures back == Some(Plain(t))
  {
    hide *;
    var buffer := new Buffer();
    SortedIsOrdered(t, rawsz, |t.down|);
    var ok := WriteOne(buffer, t, "");
    WholeBuffer(buffer.data, Encoded(t, ""));
    var next;
    back, next := ReadOne(buffer.data, 0, rawsz, t, "");
    assert next == |buffer.data|;
  }

  lemma WholeBuffer(buf: string, s: string)
    requires buf == "" + s
    ensures buf == s && At(buf, 0, s) && NoNul("")
  {
  }
}
