/**
 Coalescing lost lines in combine-diff.c: the LCS table and the in-place merge of the lines
 lost from one more parent into those lost from earlier ones.  Lines match exactly.
 */
module Coalesce {
  import opened Bits

  type Text = string

  /** A lost line and the parents that had it, one bit each. */
  datatype LLine = LLine(text: Text, parentMap: Word)

  ghost function Texts(lines: seq<LLine>): seq<Text> {
    seq(|lines|, i requires 0 <= i < |lines| => lines[i].text)
  }

  /** The texts of the lines that parent `n` had. */
  ghost function Project(lines: seq<LLine>, n: nat): seq<Text> {
    if lines == [] then []
    else (if Has(lines[0].parentMap, n) then [lines[0].text] else []) + Project(lines[1..], n)
  }

  lemma {:induction false} ProjectAll(x: seq<LLine>, n: nat)
    requires forall e | e in x :: Has(e.parentMap, n)
    ensures Project(x, n) == Texts(x)
  {
    hide Has;
    if x != [] {
      ProjectAll(x[1..], n);
      assert Texts(x) == [x[0].text] + Texts(x[1..]);
    }
  }

  lemma {:induction false} ProjectNone(x: seq<LLine>, n: nat)
    ensures Project(x, n) == [] <==> forall e | e in x :: !Has(e.parentMap, n)
  {
    hide Has;
    if x != [] {
      ProjectNone(x[1..], n);
      assert x == [x[0]] + x[1..];
    }
  }

  // ---------- common subsequences ----------

  ghost function Max(x: nat, y: nat): nat {
    if x >= y then x else y
  }

  /** Length of the longest common subsequence of the first `i` of `a` and the first `j` of `b`. */
  ghost function Lcs(a: seq<Text>, b: seq<Text>, i: nat, j: nat): nat
    requires i <= |a| && j <= |b|
  {
    if i == 0 || j == 0 then 0
    else if a[i - 1] == b[j - 1] then Lcs(a, b, i - 1, j - 1) + 1
    else Max(Lcs(a, b, i, j - 1), Lcs(a, b, i - 1, j))
  }

  /** `x` can be obtained from `w` by deleting elements. */
  ghost predicate Subsequence(x: seq<Text>, w: seq<Text>)
    decreases |w|
  {
    || x == []
    || (w != [] && x[|x| - 1] == w[|w| - 1] && Subsequence(x[..|x| - 1], w[..|w| - 1]))
    || (w != [] && Subsequence(x, w[..|w| - 1]))
  }

  lemma {:induction false} LcsSteps(a: seq<Text>, b: seq<Text>, i: nat, j: nat)
    requires i <= |a| && j <= |b|
    ensures i > 0 ==> Lcs(a, b, i - 1, j) <= Lcs(a, b, i, j) <= Lcs(a, b, i - 1, j) + 1
    ensures j > 0 ==> Lcs(a, b, i, j - 1) <= Lcs(a, b, i, j) <= Lcs(a, b, i, j - 1) + 1
    decreases i + j
  {
    if i > 0 && j > 0 {
      LcsSteps(a, b, i - 1, j);
      LcsSteps(a, b, i, j - 1);
      LcsSteps(a, b, i - 1, j - 1);
    }
  }

  /** No common supersequence is shorter than |a| + |b| - LCS. */
  lemma {:induction false} SupersequenceIsLong(a: seq<Text>, b: seq<Text>, i: nat, j: nat, w: seq<Text>)
    requires i <= |a| && j <= |b| && Subsequence(a[..i], w) && Subsequence(b[..j], w)
    ensures |w| >= i + j - Lcs(a, b, i, j)
    decreases |w|
  {
    if i > 0 && j > 0 {
      var w' := w[..|w| - 1];
      assert a[..i][..i - 1] == a[..i - 1] && b[..j][..j - 1] == b[..j - 1];
      LcsSteps(a, b, i, j);
      if Subsequence(a[..i], w') {
        if Subsequence(b[..j], w') {
          SupersequenceIsLong(a, b, i, j, w');
        } else {
          SupersequenceIsLong(a, b, i, j - 1, w');
        }
      } else if Subsequence(b[..j], w') {
        SupersequenceIsLong(a, b, i - 1, j, w');
      } else {
        SupersequenceIsLong(a, b, i - 1, j - 1, w');
      }
    } else {
      SubsequenceLength(a[..i], w);
      SubsequenceLength(b[..j], w);
    }
  }

  lemma {:induction false} SubsequenceLength(x: seq<Text>, w: seq<Text>)
    requires Subsequence(x, w)
    ensures |x| <= |w|
    decreases |w|
  {
    if x != [] {
      if Subsequence(x, w[..|w| - 1]) {
        SubsequenceLength(x, w[..|w| - 1]);
      } else {
        SubsequenceLength(x[..|x| - 1], w[..|w| - 1]);
      }
    }
  }

  lemma {:induction false} SubsequencePrepend(e: Text, x: seq<Text>, w: seq<Text>)
    requires Subsequence(x, w)
    ensures Subsequence(x, [e] + w) && Subsequence([e] + x, [e] + w)
    decreases |w|
  {
    var w' := [e] + w;
    if w == [] {
      assert w'[..0] == [];
      assert ([e] + x)[..|x|] == [];
    } else {
      var v := w[..|w| - 1];
      assert w'[..|w|] == [e] + v && w'[|w|] == w[|w| - 1];
      if x == [] {
        assert Subsequence(x, v);
        SubsequencePrepend(e, x, v);
      } else if Subsequence(x, v) {
        SubsequencePrepend(e, x, v);
      } else {
        SubsequencePrepend(e, x[..|x| - 1], v);
        assert ([e] + x)[..|x|] == [e] + x[..|x| - 1];
      }
    }
  }

  // ---------- the table ----------

  datatype Direction = MATCH | BASE | NEW

  /** The direction that coalesce_lines records for a cell. */
  ghost function Direct(a: seq<Text>, b: seq<Text>, i: nat, j: nat): Direction
    requires i <= |a| && j <= |b|
  {
    if j == 0 then BASE
    else if i == 0 then NEW
    else if a[i - 1] == b[j - 1] then MATCH
    else if Lcs(a, b, i, j - 1) >= Lcs(a, b, i - 1, j) then NEW
    else BASE
  }

  ghost predicate CellOk(length: nat, direction: Direction, a: seq<Text>, b: seq<Text>, i: nat, j: nat)
    requires i <= |a| && j <= |b|
  {
    length == Lcs(a, b, i, j) && direction == Direct(a, b, i, j)
  }

  lemma CellStep(a: seq<Text>, b: seq<Text>, i: nat, j: nat)
    requires 0 < i <= |a| && 0 < j <= |b|
    ensures var up, left := Lcs(a, b, i - 1, j), Lcs(a, b, i, j - 1);
      if a[i - 1] == b[j - 1] then CellOk(Lcs(a, b, i - 1, j - 1) + 1, MATCH, a, b, i, j)
      else if left >= up then CellOk(left, NEW, a, b, i, j)
      else CellOk(up, BASE, a, b, i, j)
  {
  }

  lemma CellAtLeft(a: seq<Text>, b: seq<Text>, i: nat)
    requires i <= |a|
    ensures CellOk(0, BASE, a, b, i, 0)
  {
  }

  /** One row of the table. */
  method FillRow(lcs: array2<nat>, directions: array2<Direction>, base: seq<LLine>, new_: seq<LLine>, i: nat)
    requires lcs.Length0 == directions.Length0 == |base| + 1 && lcs.Length1 == directions.Length1 == |new_| + 1
    requires 0 < i <= |base| && lcs[i, 0] == 0 && directions[i, 0] == BASE
    requires forall k, j | k == i - 1 && 0 <= j <= |new_| :: CellOk(lcs[k, j], directions[k, j], Texts(base), Texts(new_), k, j)
    modifies lcs, directions
    ensures forall j | 0 <= j <= |new_| :: CellOk(lcs[i, j], directions[i, j], Texts(base), Texts(new_), i, j)
    ensures forall k, j | 0 <= k <= |base| && k != i && 0 <= j <= |new_| ::
      lcs[k, j] == old(lcs[k, j]) && directions[k, j] == old(directions[k, j])
  {
    hide Lcs, Direct;
    ghost var a, b := Texts(base), Texts(new_);
    CellAtLeft(a, b, i);
    for j := 1 to |new_| + 1
      invariant forall k | 0 <= k < j :: CellOk(lcs[i, k], directions[i, k], a, b, i, k)
      invariant forall k, j | 0 <= k <= |base| && k != i && 0 <= j <= |new_| ::
        lcs[k, j] == old(lcs[k, j]) && directions[k, j] == old(directions[k, j])
    {
      assert CellOk(lcs[i, j - 1], directions[i, j - 1], a, b, i, j - 1);
      assert CellOk(lcs[i - 1, j], directions[i - 1, j], a, b, i - 1, j);
      assert CellOk(lcs[i - 1, j - 1], directions[i - 1, j - 1], a, b, i - 1, j - 1);
      CellStep(a, b, i, j);
      if base[i - 1].text == new_[j - 1].text {
        lcs[i, j] := lcs[i - 1, j - 1] + 1;
        directions[i, j] := MATCH;
      } else if lcs[i, j - 1] >= lcs[i - 1, j] {
        lcs[i, j] := lcs[i, j - 1];
        directions[i, j] := NEW;
      } else {
        lcs[i, j] := lcs[i - 1, j];
        directions[i, j] := BASE;
      }
      assert CellOk(lcs[i, j], directions[i, j], a, b, i, j);
    }
  }

  /** The dynamic-programming half of coalesce_lines; only the directions are needed afterwards. */
  method FillTable(base: seq<LLine>, new_: seq<LLine>) returns (directions: array2<Direction>)
    ensures fresh(directions) && directions.Length0 == |base| + 1 && directions.Length1 == |new_| + 1
    ensures forall i, j | 0 <= i <= |base| && 0 <= j <= |new_| ::
      directions[i, j] == Direct(Texts(base), Texts(new_), i, j)
  {
    ghost var a, b := Texts(base), Texts(new_);
    var lcs := new nat[|base| + 1, |new_| + 1]((i, j) => 0);
    directions := new Direction[|base| + 1, |new_| + 1]((i, j) => if j == 0 then BASE else NEW);
    for i := 1 to |base| + 1
      invariant forall k, j | 0 <= k < i && 0 <= j <= |new_| :: CellOk(lcs[k, j], directions[k, j], a, b, k, j)
      invariant forall k | i <= k <= |base| :: lcs[k, 0] == 0 && directions[k, 0] == BASE
    {
      FillRow(lcs, directions, base, new_, i);
    }
    assert forall i, j | 0 <= i <= |base| && 0 <= j <= |new_| :: CellOk(lcs[i, j], directions[i, j], a, b, i, j);
  }

  // ---------- the merge ----------

  /** What reading the directions backwards makes of the two lists, the lines behind `i` and `j` being merged into `tail`. */
  ghost function Walked(base: seq<LLine>, new_: seq<LLine>, mark: Word, i: nat, j: nat, tail: seq<LLine>): seq<LLine>
    requires i <= |base| && j <= |new_|
    decreases i + j
  {
    if i == 0 && j == 0 then tail
    else match Direct(Texts(base), Texts(new_), i, j)
      case MATCH => Walked(base, new_, mark, i - 1, j - 1, [Marked(base[i - 1], mark)] + tail)
      case NEW => Walked(base, new_, mark, i, j - 1, [new_[j - 1]] + tail)
      case BASE => Walked(base, new_, mark, i - 1, j, [base[i - 1]] + tail)
  }

  function Marked(e: LLine, mark: Word): LLine {
    e.(parentMap := Or(e.parentMap, mark))
  }

  /** coalesce_lines, where a match marks the line with `mark`. */
  ghost function CoalescedLines(base: seq<LLine>, new_: seq<LLine>, mark: Word): seq<LLine> {
    if new_ == [] then base
    else if base == [] then new_
    else Walked(base, new_, mark, |base|, |new_|, [])
  }

  /** The lines behind `i` and `j` are all in `tail`, and each line the two sides share was stored once. */
  ghost predicate MergedTexts(base: seq<LLine>, new_: seq<LLine>, i: nat, j: nat, tail: seq<LLine>)
    requires i <= |base| && j <= |new_|
  {
    var a, b := Texts(base), Texts(new_);
    && |tail| + Lcs(a, b, |a|, |b|) == (|a| - i) + (|b| - j) + Lcs(a, b, i, j)
    && Subsequence(a[i..], Texts(tail)) && Subsequence(b[j..], Texts(tail))
  }

  /** Parent `n` reads the new lines off `tail`, and every other parent its own lines. */
  ghost predicate MergedReads(base: seq<LLine>, new_: seq<LLine>, n: nat, i: nat, j: nat, tail: seq<LLine>)
    requires i <= |base| && j <= |new_|
  {
    Project(tail, n) == Texts(new_)[j..] && forall m | 0 <= m < 32 && m != n :: Project(tail, m) == Project(base[i..], m)
  }

  /** Among the parents that an int can number, `mark` stands for `n` alone. */
  ghost predicate Marks(mark: Word, n: nat) {
    n < 32 && forall m | 0 <= m < 32 :: Has(mark, m) <==> m == n
  }

  lemma OneShiftedMarks(n: nat, beyond: nat -> Word)
    requires n < 32
    ensures Marks(OneShifted(n, beyond), n) && Marks(Bit(n), n)
  {
    hide Has, OneShifted, Bit;
    forall m | 0 <= m < 32
      ensures Has(OneShifted(n, beyond), m) <==> m == n
      ensures Has(Bit(n), m) <==> m == n
    {
      OneShiftedHas(n, beyond, m);
      HasBit(n, m);
    }
  }

  lemma ProjectCons(e: LLine, lines: seq<LLine>, n: nat)
    ensures Project([e] + lines, n) == (if Has(e.parentMap, n) then [e.text] else []) + Project(lines, n)
  {
    assert ([e] + lines)[1..] == lines;
  }

  lemma ProjectFrom(lines: seq<LLine>, i: nat, n: nat)
    requires 0 < i <= |lines|
    ensures Project(lines[i - 1..], n) == (if Has(lines[i - 1].parentMap, n) then [lines[i - 1].text] else []) + Project(lines[i..], n)
  {
    assert lines[i - 1..] == [lines[i - 1]] + lines[i..];
    ProjectCons(lines[i - 1], lines[i..], n);
  }

  lemma TextsFrom(lines: seq<LLine>, i: nat)
    requires 0 < i <= |lines|
    ensures Texts(lines)[i - 1..] == [lines[i - 1].text] + Texts(lines)[i..]
  {
  }

  lemma TextsCons(e: LLine, lines: seq<LLine>)
    ensures Texts([e] + lines) == [e.text] + Texts(lines)
  {
  }

  lemma TextsStep(base: seq<LLine>, new_: seq<LLine>, i: nat, j: nat, tail: seq<LLine>, e: LLine, i': nat, j': nat)
    requires i <= |base| && j <= |new_| && MergedTexts(base, new_, i, j, tail)
    requires i - 1 <= i' <= i && j - 1 <= j' <= j
    requires i' < i ==> e.text == base[i'].text
    requires j' < j ==> e.text == new_[j'].text
    requires Lcs(Texts(base), Texts(new_), i', j') + (i - i') + (j - j') == Lcs(Texts(base), Texts(new_), i, j) + 1
    ensures MergedTexts(base, new_, i', j', [e] + tail)
  {
    hide Lcs, Subsequence;
    var a, b, w := Texts(base), Texts(new_), Texts(tail);
    TextsCons(e, tail);
    SubsequencePrepend(e.text, a[i..], w);
    SubsequencePrepend(e.text, b[j..], w);
    if i' < i {
      TextsFrom(base, i);
    }
    if j' < j {
      TextsFrom(new_, j);
    }
  }

  lemma {:induction false} WalkedTexts(base: seq<LLine>, new_: seq<LLine>, mark: Word, i: nat, j: nat, tail: seq<LLine>)
    requires i <= |base| && j <= |new_| && MergedTexts(base, new_, i, j, tail)
    ensures MergedTexts(base, new_, 0, 0, Walked(base, new_, mark, i, j, tail))
    decreases i + j
  {
    hide Lcs, MergedTexts, Direct;
    if i + j > 0 {
      DirectMeans(base, new_, i, j);
      match Direct(Texts(base), Texts(new_), i, j) {
        case MATCH =>
          var e := Marked(base[i - 1], mark);
          TextsStep(base, new_, i, j, tail, e, i - 1, j - 1);
          WalkedTexts(base, new_, mark, i - 1, j - 1, [e] + tail);
        case NEW =>
          TextsStep(base, new_, i, j, tail, new_[j - 1], i, j - 1);
          WalkedTexts(base, new_, mark, i, j - 1, [new_[j - 1]] + tail);
        case BASE =>
          TextsStep(base, new_, i, j, tail, base[i - 1], i - 1, j);
          WalkedTexts(base, new_, mark, i - 1, j, [base[i - 1]] + tail);
      }
    }
  }

  /** Marking a line adds it to what parent `n` reads, and leaves the others alone. */
  lemma MarkedReads(e: LLine, mark: Word, n: nat, m: nat)
    requires Marks(mark, n) && m < 32
    ensures Has(Marked(e, mark).parentMap, m) <==> m == n || Has(e.parentMap, m)
  {
    hide Has, Or;
    HasOr(e.parentMap, mark, m);
  }

  lemma ReadsMatch(base: seq<LLine>, new_: seq<LLine>, n: nat, mark: Word, i: nat, j: nat, tail: seq<LLine>)
    requires 0 < i <= |base| && 0 < j <= |new_| && MergedReads(base, new_, n, i, j, tail) && Marks(mark, n)
    requires base[i - 1].text == new_[j - 1].text
    ensures MergedReads(base, new_, n, i - 1, j - 1, [Marked(base[i - 1], mark)] + tail)
  {
    assert n < 32;
    hide Project, Has, Marks;
    var e := Marked(base[i - 1], mark);
    forall m | 0 <= m < 32
      ensures Project([e] + tail, m) == if m == n then Texts(new_)[j - 1..] else Project(base[i - 1..], m)
    {
      ProjectCons(e, tail, m);
      ProjectFrom(base, i, m);
      MarkedReads(base[i - 1], mark, n, m);
      TextsFrom(new_, j);
    }
  }

  lemma ReadsNew(base: seq<LLine>, new_: seq<LLine>, n: nat, i: nat, j: nat, tail: seq<LLine>)
    requires i <= |base| && 0 < j <= |new_| && MergedReads(base, new_, n, i, j, tail) && Marks(new_[j - 1].parentMap, n)
    ensures MergedReads(base, new_, n, i, j - 1, [new_[j - 1]] + tail)
  {
    hide Project, Has;
    var e := new_[j - 1];
    TextsFrom(new_, j);
    forall m | 0 <= m < 32
      ensures Project([e] + tail, m) == if m == n then Texts(new_)[j - 1..] else Project(base[i..], m)
    {
      ProjectCons(e, tail, m);
      assert Has(e.parentMap, m) <==> m == n;
    }
  }

  lemma ReadsBase(base: seq<LLine>, new_: seq<LLine>, n: nat, i: nat, j: nat, tail: seq<LLine>)
    requires 0 < i <= |base| && j <= |new_| && MergedReads(base, new_, n, i, j, tail) && !Has(base[i - 1].parentMap, n)
    ensures MergedReads(base, new_, n, i - 1, j, [base[i - 1]] + tail)
  {
    hide Project, Has;
    var e := base[i - 1];
    ProjectCons(e, tail, n);
    forall m | 0 <= m < 32 && m != n ensures Project([e] + tail, m) == Project(base[i - 1..], m) {
      ProjectCons(e, tail, m);
      ProjectFrom(base, i, m);
    }
  }

  lemma {:induction false} WalkedReads(base: seq<LLine>, new_: seq<LLine>, n: nat, mark: Word, i: nat, j: nat, tail: seq<LLine>)
    requires i <= |base| && j <= |new_| && MergedReads(base, new_, n, i, j, tail) && Marks(mark, n)
    requires forall e | e in base :: !Has(e.parentMap, n)
    requires forall e | e in new_ :: Marks(e.parentMap, n)
    ensures MergedReads(base, new_, n, 0, 0, Walked(base, new_, mark, i, j, tail))
    decreases i + j
  {
    hide Lcs, MergedReads, Direct, Marks, Has;
    if i + j > 0 {
      DirectMeans(base, new_, i, j);
      match Direct(Texts(base), Texts(new_), i, j) {
        case MATCH =>
          ReadsMatch(base, new_, n, mark, i, j, tail);
          WalkedReads(base, new_, n, mark, i - 1, j - 1, [Marked(base[i - 1], mark)] + tail);
        case NEW =>
          assert new_[j - 1] in new_;
          ReadsNew(base, new_, n, i, j, tail);
          WalkedReads(base, new_, n, mark, i, j - 1, [new_[j - 1]] + tail);
        case BASE =>
          assert base[i - 1] in base;
          ReadsBase(base, new_, n, i, j, tail);
          WalkedReads(base, new_, n, mark, i - 1, j, [base[i - 1]] + tail);
      }
    }
  }

  lemma LcsZero(a: seq<Text>, b: seq<Text>, i: nat, j: nat)
    requires i <= |a| && j <= |b| && (i == 0 || j == 0)
    ensures Lcs(a, b, i, j) == 0
  {
  }

  /** `r` contains the lines of both sides in order, and nothing shorter does. */
  ghost predicate Shortest(base: seq<LLine>, new_: seq<LLine>, r: seq<LLine>) {
    && |r| == |base| + |new_| - Lcs(Texts(base), Texts(new_), |base|, |new_|)
    && Subsequence(Texts(base), Texts(r)) && Subsequence(Texts(new_), Texts(r))
    && forall w | Subsequence(Texts(base), w) && Subsequence(Texts(new_), w) :: |w| >= |r|
  }

  lemma IsShortest(base: seq<LLine>, new_: seq<LLine>, r: seq<LLine>)
    requires |r| == |base| + |new_| - Lcs(Texts(base), Texts(new_), |base|, |new_|)
    requires Subsequence(Texts(base), Texts(r)) && Subsequence(Texts(new_), Texts(r))
    ensures Shortest(base, new_, r)
  {
    hide Lcs, Subsequence;
    var a, b := Texts(base), Texts(new_);
    assert a[..|a|] == a && b[..|b|] == b;
    forall w | Subsequence(a, w) && Subsequence(b, w) ensures |w| >= |r| {
      SupersequenceIsLong(a, b, |a|, |b|, w);
    }
  }

  lemma {:induction false} SubsequenceSelf(x: seq<Text>)
    ensures Subsequence(x, x)
  {
    if x != [] {
      SubsequenceSelf(x[..|x| - 1]);
    }
  }

  lemma OneSideIsShortest(base: seq<LLine>, new_: seq<LLine>)
    requires base == [] || new_ == []
    ensures Shortest(base, new_, if new_ == [] then base else new_)
  {
    LcsZero(Texts(base), Texts(new_), |base|, |new_|);
    SubsequenceSelf(Texts(base));
    SubsequenceSelf(Texts(new_));
    IsShortest(base, new_, if new_ == [] then base else new_);
  }

  /** Whatever marks the matches, the result is a shortest common supersequence. */
  lemma CoalescedIsShortest(base: seq<LLine>, new_: seq<LLine>, mark: Word)
    ensures Shortest(base, new_, CoalescedLines(base, new_, mark))
  {
    hide Lcs, Subsequence, Walked;
    if base == [] || new_ == [] {
      OneSideIsShortest(base, new_);
    } else {
      var a, b := Texts(base), Texts(new_);
      assert a[|a|..] == [] && b[|b|..] == [] && a[0..] == a && b[0..] == b;
      assert Texts([]) == [];
      SubsequenceSelf([]);
      WalkedTexts(base, new_, mark, |base|, |new_|, []);
      LcsZero(a, b, 0, 0);
      IsShortest(base, new_, CoalescedLines(base, new_, mark));
    }
  }

  /** With a mark for parent `n` alone, that parent reads the lines it lost, and every other parent what it read before. */
  lemma CoalescedReads(base: seq<LLine>, new_: seq<LLine>, n: nat, mark: Word)
    requires Marks(mark, n) && Project(base, n) == []
    requires forall e | e in new_ :: Marks(e.parentMap, n)
    ensures Project(CoalescedLines(base, new_, mark), n) == Texts(new_)
    ensures forall m | 0 <= m < 32 && m != n :: Project(CoalescedLines(base, new_, mark), m) == Project(base, m)
  {
    hide Walked, Has;
    ProjectNone(base, n);
    if new_ == [] {
    } else if base == [] {
      ProjectAll(new_, n);
      forall m | 0 <= m < 32 && m != n ensures Project(new_, m) == [] {
        ProjectNone(new_, m);
      }
    } else {
      hide Marks;
      var b := Texts(new_);
      assert b[|b|..] == [] && base[|base|..] == [] && b[0..] == b && base[0..] == base;
      WalkedReads(base, new_, n, mark, |base|, |new_|, []);
    }
  }

  /** coalesce_lines for parent `n`, whose bit is shifted as an int. */
  method CoalesceLines(base: seq<LLine>, new_: seq<LLine>, n: nat, beyond: nat -> Word) returns (r: seq<LLine>)
    ensures r == CoalescedLines(base, new_, OneShifted(n, beyond)) && Shortest(base, new_, r)
    // below 32, the new parent reads its lost lines, the others what they read before
    ensures n < 32 && Project(base, n) == [] && (forall e | e in new_ :: Marks(e.parentMap, n)) ==>
      Project(r, n) == Texts(new_) && forall m | 0 <= m < 32 && m != n :: Project(r, m) == Project(base, m)
  {
    hide Walked, OneShifted, Shortest, Project, Marks, Direct, Lcs;
    CoalescedIsShortest(base, new_, OneShifted(n, beyond));
    if n < 32 && Project(base, n) == [] && forall e | e in new_ :: Marks(e.parentMap, n) {
      OneShiftedMarks(n, beyond);
      CoalescedReads(base, new_, n, OneShifted(n, beyond));
    }
    if new_ == [] {
      return base;
    }
    if base == [] {
      return new_;
    }
    var directions := FillTable(base, new_);
    r := WalkBack(base, new_, n, beyond, directions);
  }

  /** The second half of coalesce_lines: read the directions backwards and merge in place. */
  method WalkBack(base: seq<LLine>, new_: seq<LLine>, n: nat, beyond: nat -> Word, directions: array2<Direction>) returns (r: seq<LLine>)
    requires directions.Length0 == |base| + 1 && directions.Length1 == |new_| + 1
    requires forall i, j | 0 <= i <= |base| && 0 <= j <= |new_| ::
      directions[i, j] == Direct(Texts(base), Texts(new_), i, j)
    ensures r == Walked(base, new_, OneShifted(n, beyond), |base|, |new_|, [])
  {
    hide Lcs, Direct, OneShifted;
    var mark := OneShifted(n, beyond);
    var i, j := |base|, |new_|;
    r := base;
    ghost var tail := [];
    while i != 0 || j != 0
      invariant 0 <= i <= |base| && 0 <= j <= |new_| && r == base[..i] + tail
      invariant Walked(base, new_, mark, |base|, |new_|, []) == Walked(base, new_, mark, i, j, tail)
      decreases i + j
    {
      DirectMeans(base, new_, i, j);
      match directions[i, j] {
        case MATCH =>
          var e := Marked(r[i - 1], mark);
          SpliceAt(base, i, tail, e);
          r := r[i - 1 := e];
          tail := [e] + tail;
          i, j := i - 1, j - 1;
        case NEW =>
          tail := [new_[j - 1]] + tail;
          r := r[..i] + [new_[j - 1]] + r[i..];
          j := j - 1;
        case BASE =>
          SpliceAt(base, i, tail, base[i - 1]);
          tail := [base[i - 1]] + tail;
          i := i - 1;
      }
    }
    assert r == tail;
  }

  lemma SpliceAt(base: seq<LLine>, i: nat, tail: seq<LLine>, e: LLine)
    requires 0 < i <= |base|
    ensures (base[..i] + tail)[i - 1] == base[i - 1]
    ensures (base[..i] + tail)[i - 1 := e] == base[..i - 1] + ([e] + tail)
    ensures e == base[i - 1] ==> base[..i] + tail == base[..i - 1] + ([e] + tail)
  {
  }

  lemma DirectMeans(base: seq<LLine>, new_: seq<LLine>, i: nat, j: nat)
    requires i <= |base| && j <= |new_| && i + j > 0
    ensures match Direct(Texts(base), Texts(new_), i, j)
      case MATCH => i > 0 && j > 0 && base[i - 1].text == new_[j - 1].text
        && Lcs(Texts(base), Texts(new_), i, j) == Lcs(Texts(base), Texts(new_), i - 1, j - 1) + 1
      case NEW => j > 0 && Lcs(Texts(base), Texts(new_), i, j) == Lcs(Texts(base), Texts(new_), i, j - 1)
      case BASE => i > 0 && Lcs(Texts(base), Texts(new_), i, j) == Lcs(Texts(base), Texts(new_), i - 1, j)
  {
  }
}
