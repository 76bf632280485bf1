/**
 Building a combined diff in combine-diff.c: the diff of each parent against the result is
 consumed hunk by hunk, and the lines that a parent lost are merged into the result's lines.
 */
module Combine {
  import opened Bits
  import opened Coalesce

  /** One line of the merge result, or one of the two entries behind the last line; `flag` has a bit for each parent it was added to. */
  datatype SLine = SLine(lost: seq<LLine>, plost: seq<LLine>, flag: Word)

  /** A hunk replaces lines [a0, a1) of the parent by lines [b0, b1) of the result, both from zero. */
  datatype Hunk = Hunk(a0: nat, a1: nat, b0: nat, b1: nat)

  // ---------- what the lines say about a parent ----------

  ghost function Own(result: seq<Text>, flag: Word, k: nat, n: nat): seq<Text> {
    if k < |result| && !Has(flag, n) then [result[k]] else []
  }

  /** Parent `n`'s file as told by the first `k` lines: lost lines with its bit, then the line itself unless it was added. */
  ghost function Recover(sline: seq<SLine>, result: seq<Text>, n: nat, k: nat): seq<Text>
    requires k <= |sline|
  {
    if k == 0 then []
    else Recover(sline, result, n, k - 1) + Project(sline[k - 1].lost, n) + Own(result, sline[k - 1].flag, k - 1, n)
  }

  /** The same while the lines lost by parent `n` are not coalesced yet. */
  ghost function Pending(sline: seq<SLine>, result: seq<Text>, n: nat, k: nat): seq<Text>
    requires k <= |sline|
  {
    if k == 0 then []
    else Pending(sline, result, n, k - 1) + Texts(sline[k - 1].plost) + Own(result, sline[k - 1].flag, k - 1, n)
  }

  lemma {:induction false} PendingFrame(s: seq<SLine>, t: seq<SLine>, result: seq<Text>, n: nat, k: nat)
    requires k <= |s| && k <= |t| && s[..k] == t[..k]
    ensures Pending(s, result, n, k) == Pending(t, result, n, k)
  {
    hide Has;
    if k > 0 {
      assert s[..k][k - 1] == t[..k][k - 1];
      assert s[..k - 1] == s[..k][..k - 1] && t[..k - 1] == t[..k][..k - 1];
      PendingFrame(s, t, result, n, k - 1);
    }
  }

  lemma {:induction false} RecoverFrame(s: seq<SLine>, t: seq<SLine>, result: seq<Text>, n: nat, k: nat)
    requires k <= |s| && k <= |t| && s[..k] == t[..k]
    ensures Recover(s, result, n, k) == Recover(t, result, n, k)
  {
    hide Has;
    if k > 0 {
      assert s[..k][k - 1] == t[..k][k - 1];
      assert s[..k - 1] == s[..k][..k - 1] && t[..k - 1] == t[..k][..k - 1];
      RecoverFrame(s, t, result, n, k - 1);
    }
  }

  lemma PendingOne(sline: seq<SLine>, result: seq<Text>, n: nat, k: nat)
    requires 0 < k <= |sline| && k <= |result| && !Has(sline[k - 1].flag, n)
    ensures Pending(sline, result, n, k) == Pending(sline, result, n, k - 1) + Texts(sline[k - 1].plost) + [result[k - 1]]
  {
    hide Has, Texts;
  }

  lemma NoTexts()
    ensures Texts([]) == []
  {
  }

  lemma SliceGrows(result: seq<Text>, from: nat, k: nat)
    requires from < k <= |result|
    ensures result[from..k] == result[from..k - 1] + [result[k - 1]]
  {
  }

  /** Lines nothing happened to repeat the result. */
  lemma {:induction false} PendingClean(sline: seq<SLine>, result: seq<Text>, n: nat, from: nat, k: nat)
    requires from <= k <= |sline| && k <= |result|
    requires forall i | from < i < k :: sline[i].plost == [] && !Has(sline[i].flag, n)
    requires from < k ==> !Has(sline[from].flag, n)
    ensures from < k ==>
      Pending(sline, result, n, k) == Pending(sline, result, n, from) + Texts(sline[from].plost) + result[from..k]
  {
    hide Has, Texts, Pending;
    if from + 1 < k {
      PendingClean(sline, result, n, from, k - 1);
      PendingOne(sline, result, n, k);
      NoTexts();
      SliceGrows(result, from, k);
    } else if from + 1 == k {
      PendingOne(sline, result, n, k);
      assert result[from..k] == [result[from]];
    }
  }

  /** Lines that were all added only repeat what the parent lost in front of them. */
  lemma {:induction false} PendingAdded(sline: seq<SLine>, result: seq<Text>, n: nat, from: nat, k: nat)
    requires from < k <= |sline|
    requires forall i | from < i < k :: sline[i].plost == []
    requires forall i | from <= i < k :: Has(sline[i].flag, n)
    ensures Pending(sline, result, n, k) == Pending(sline, result, n, from) + Texts(sline[from].plost)
  {
    hide Has;
    if from + 1 < k {
      PendingAdded(sline, result, n, from, k - 1);
      assert Texts(sline[k - 1].plost) == [];
    }
  }

  // ---------- a diff between a parent and the result ----------

  function EndA(script: seq<Hunk>, i: nat): nat
    requires i <= |script|
  {
    if i == 0 then 0 else script[i - 1].a1
  }

  function EndB(script: seq<Hunk>, i: nat): nat
    requires i <= |script|
  {
    if i == 0 then 0 else script[i - 1].b1
  }

  /** The hunks are ordered, and between them parent and result have the same lines. */
  ghost predicate Edits(script: seq<Hunk>, parent: seq<Text>, result: seq<Text>) {
    && (forall i | 0 <= i < |script| ::
         && EndA(script, i) <= script[i].a0 <= script[i].a1 <= |parent|
         && EndB(script, i) <= script[i].b0 <= script[i].b1 <= |result|
         && parent[EndA(script, i)..script[i].a0] == result[EndB(script, i)..script[i].b0])
    && EndA(script, |script|) <= |parent| && EndB(script, |script|) <= |result|
    && parent[EndA(script, |script|)..] == result[EndB(script, |script|)..]
  }

  // ---------- what the code makes of the lines, parent by parent ----------

  ghost function LostLines(lines: seq<Text>, n: nat): seq<LLine>
    requires n < 64
  {
    seq(|lines|, i requires 0 <= i < |lines| => LLine(lines[i], Bit(n)))
  }

  /** One hunk of parent `n`: its lines are lost in front of line `b0`, and lines [b0, b1) are added. */
  ghost function RecordedHunk(s: seq<SLine>, h: Hunk, parent: seq<Text>, n: nat): seq<SLine>
    requires n < 64 && h.a0 <= h.a1 <= |parent|
  {
    seq(|s|, k requires 0 <= k < |s| => SLine(
      s[k].lost,
      if k == h.b0 then s[k].plost + LostLines(parent[h.a0..h.a1], n) else s[k].plost,
      if h.b0 <= k < h.b1 then Or(s[k].flag, Bit(n)) else s[k].flag))
  }

  ghost function Recorded(s: seq<SLine>, script: seq<Hunk>, parent: seq<Text>, n: nat, i: nat): (t: seq<SLine>)
    requires n < 64 && i <= |script| && forall h | h in script :: h.a0 <= h.a1 <= |parent|
    ensures |t| == |s|
  {
    if i == 0 then s else RecordedHunk(Recorded(s, script, parent, n, i - 1), script[i - 1], parent, n)
  }

  /** The lines lost by one more parent are coalesced into those of the others. */
  ghost function CoalescedLine(l: SLine, mark: Word): SLine {
    SLine(CoalescedLines(l.lost, l.plost, mark), [], l.flag)
  }

  ghost function CoalescedAll(s: seq<SLine>, mark: Word): seq<SLine> {
    seq(|s|, k requires 0 <= k < |s| => if k + 1 < |s| then CoalescedLine(s[k], mark) else s[k])
  }

  /** combine_diff. */
  ghost function Diffed(s: seq<SLine>, script: seq<Hunk>, parent: seq<Text>, n: nat, beyond: nat -> Word): (t: seq<SLine>)
    requires n < 64 && forall h | h in script :: h.a0 <= h.a1 <= |parent|
    ensures |t| == |s|
  {
    CoalescedAll(Recorded(s, script, parent, n, |script|), OneShifted(n, beyond))
  }

  /** Give bit `i` to every line that carries bit `j`. */
  ghost function Copied(lost: seq<LLine>, i: nat, j: nat): seq<LLine>
    requires i < 64
  {
    seq(|lost|, k requires 0 <= k < |lost| => if Has(lost[k].parentMap, j) then Marked(lost[k], Bit(i)) else lost[k])
  }

  ghost function ReusedLine(l: SLine, i: nat, j: nat): SLine
    requires i < 64
  {
    SLine(Copied(l.lost, i, j), l.plost, if Has(l.flag, j) then Or(l.flag, Bit(i)) else l.flag)
  }

  /** reuse_combine_diff. */
  ghost function Reused(s: seq<SLine>, i: nat, j: nat): (t: seq<SLine>)
    requires i < 64
    ensures |t| == |s|
  {
    seq(|s|, k requires 0 <= k < |s| => if k + 1 < |s| then ReusedLine(s[k], i, j) else s[k])
  }

  /** A merge: its result, and for each parent an object name, a diff against the result and the file. */
  datatype Merge = Merge(result: seq<Text>, oids: seq<int>, scripts: seq<seq<Hunk>>, files: seq<seq<Text>>) {
    ghost predicate Valid() {
      && |oids| == |scripts| == |files| <= 64
      && (forall i | 0 <= i < |files| :: Edits(scripts[i], files[i], result))
      && (forall i, j | 0 <= i < |files| && 0 <= j < |files| && oids[i] == oids[j] :: files[i] == files[j])
    }
  }

  /** The first parent from `j` on that is the same as parent `i`. */
  ghost function FirstSame(oids: seq<int>, i: nat, j: nat): (k: nat)
    requires j <= i < |oids|
    ensures j <= k <= i && oids[k] == oids[i]
    decreases i - j
  {
    if oids[j] == oids[i] then j else FirstSame(oids, i, j + 1)
  }

  /** The lines after the first `i` parents. */
  ghost function LinesAfter(m: Merge, beyond: nat -> Word, i: nat): (s: seq<SLine>)
    requires m.Valid() && i <= |m.files|
    ensures |s| == |m.result| + 2
  {
    if i == 0 then seq(|m.result| + 2, _ => SLine([], [], 0))
    else
      var s, n := LinesAfter(m, beyond, i - 1), i - 1;
      var j := FirstSame(m.oids, n, 0);
      if j < n then Reused(s, n, j) else Diffed(s, m.scripts[n], m.files[n], n, beyond)
  }

  lemma LinesNext(m: Merge, beyond: nat -> Word, i: nat)
    requires m.Valid() && i < |m.files|
    ensures forall h | h in m.scripts[i] :: h.a0 <= h.a1 <= |m.files[i]|
    ensures var s, j := LinesAfter(m, beyond, i), FirstSame(m.oids, i, 0);
      LinesAfter(m, beyond, i + 1) == if j < i then Reused(s, i, j) else Diffed(s, m.scripts[i], m.files[i], i, beyond)
  {
    hide Diffed, Reused;
  }

  // ---------- recording one diff ----------

  /** The hunks recorded so far account for the first `a` lines of the parent, up to result line `b`. */
  ghost predicate Accounted(s: seq<SLine>, result: seq<Text>, parent: seq<Text>, n: nat, a: nat, b: nat)
    requires |s| == |result| + 2
  {
    && a <= |parent| && b <= |result|
    && Pending(s, result, n, b) + Texts(s[b].plost) == parent[..a]
    && !Has(s[b].flag, n)
    && forall i | b < i < |s| :: s[i].plost == [] && !Has(s[i].flag, n)
  }

  /** `s` differs from `s0` only by what recording parent `n` may change. */
  ghost predicate OnlyRecorded(s0: seq<SLine>, s: seq<SLine>, n: nat) {
    && |s| == |s0|
    && forall i | 0 <= i < |s| ::
         && s[i].lost == s0[i].lost && (forall m | 0 <= m < 32 && m != n :: Has(s[i].flag, m) <==> Has(s0[i].flag, m))
         && (forall e | e in s[i].plost :: Marks(e.parentMap, n))
  }

  lemma AccountGap(s: seq<SLine>, result: seq<Text>, parent: seq<Text>, n: nat, a: nat, b: nat, a': nat, b': nat)
    requires |s| == |result| + 2 && Accounted(s, result, parent, n, a, b)
    requires a <= a' <= |parent| && b <= b' <= |result| && parent[a..a'] == result[b..b']
    ensures Accounted(s, result, parent, n, a', b')
  {
    hide Has;
    assert |parent[a..a']| == |result[b..b']|;
    assert parent[..a'] == parent[..a] + parent[a..a'];
    if b < b' {
      PendingClean(s, result, n, b, b');
      assert Texts(s[b'].plost) == [];
    }
  }

  lemma FlagSet(flag: Word, n: nat, m: nat)
    requires n < 64 && m < 64
    ensures Has(Or(flag, Bit(n)), m) <==> m == n || Has(flag, m)
  {
    hide Has, Or, Bit;
    HasOr(flag, Bit(n), m);
    HasBit(n, m);
  }

  lemma HunkRecords(s0: seq<SLine>, s: seq<SLine>, h: Hunk, parent: seq<Text>, n: nat, beyond: nat -> Word)
    requires n < 32 && h.a0 <= h.a1 <= |parent| && OnlyRecorded(s0, s, n)
    ensures OnlyRecorded(s0, RecordedHunk(s, h, parent, n), n)
  {
    hide Has, Or, Bit, Marks;
    OneShiftedMarks(n, beyond);
    forall i, m | 0 <= i < |s| && 0 <= m < 32 && m != n
      ensures Has(RecordedHunk(s, h, parent, n)[i].flag, m) <==> Has(s0[i].flag, m)
    {
      FlagSet(s[i].flag, n, m);
    }
  }

  /** The lines of a recorded hunk. */
  lemma HunkLines(s: seq<SLine>, h: Hunk, parent: seq<Text>, n: nat, k: nat)
    requires n < 64 && h.a0 <= h.a1 <= |parent| && h.b0 <= h.b1 && k < |s|
    ensures var t := RecordedHunk(s, h, parent, n)[k];
      && Texts(t.plost) == Texts(s[k].plost) + (if k == h.b0 then parent[h.a0..h.a1] else [])
      && (k != h.b0 ==> t.plost == s[k].plost)
      && if h.b0 <= k < h.b1 then Has(t.flag, n) else t.flag == s[k].flag
  {
    hide Has, Or, Bit;
    FlagSet(s[k].flag, n, n);
    assert Texts(s[k].plost + LostLines(parent[h.a0..h.a1], n)) == Texts(s[k].plost) + parent[h.a0..h.a1];
    assert Texts(s[k].plost) + [] == Texts(s[k].plost);
  }

  lemma LinesFromHunk(s: seq<SLine>, result: seq<Text>, h: Hunk, parent: seq<Text>, n: nat)
    requires |s| == |result| + 2 && n < 64 && h.a0 <= h.a1 <= |parent| && h.b0 <= h.b1 <= |result|
    requires Accounted(s, result, parent, n, h.a0, h.b0)
    ensures var t := RecordedHunk(s, h, parent, n);
      forall k | h.b0 <= k < |s| :: (k != h.b0 ==> t[k].plost == []) && if k < h.b1 then Has(t[k].flag, n) else !Has(t[k].flag, n)
  {
    var t := RecordedHunk(s, h, parent, n);
    hide Has, RecordedHunk, Pending, Texts, Own;
    forall k | h.b0 <= k < |s|
      ensures (k != h.b0 ==> t[k].plost == []) && if k < h.b1 then Has(t[k].flag, n) else !Has(t[k].flag, n)
    {
      HunkLines(s, h, parent, n, k);
    }
  }

  lemma HunkAccounts(s: seq<SLine>, result: seq<Text>, h: Hunk, parent: seq<Text>, n: nat)
    requires |s| == |result| + 2 && n < 64 && h.a0 <= h.a1 <= |parent| && h.b0 <= h.b1 <= |result|
    requires Accounted(s, result, parent, n, h.a0, h.b0)
    ensures Accounted(RecordedHunk(s, h, parent, n), result, parent, n, h.a1, h.b1)
  {
    var t := RecordedHunk(s, h, parent, n);
    assert s[..h.b0] == t[..h.b0];
    hide Has, RecordedHunk, Pending, Texts, Own;
    PendingFrame(s, t, result, n, h.b0);
    assert parent[..h.a1] == parent[..h.a0] + parent[h.a0..h.a1];
    LinesFromHunk(s, result, h, parent, n);
    HunkLines(s, h, parent, n, h.b0);
    assert Pending(t, result, n, h.b0) + Texts(t[h.b0].plost) == parent[..h.a1];
    if h.b0 < h.b1 {
      PendingAdded(t, result, n, h.b0, h.b1);
      NoTexts();
    }
  }

  lemma EditsRanges(script: seq<Hunk>, parent: seq<Text>, result: seq<Text>)
    requires Edits(script, parent, result)
    ensures forall h | h in script :: h.a0 <= h.a1 <= |parent|
    ensures forall i | 0 <= i <= |script| :: EndA(script, i) <= |parent| && EndB(script, i) <= |result|
  {
  }

  lemma {:induction false} RecordedAccounts(s: seq<SLine>, result: seq<Text>, script: seq<Hunk>, parent: seq<Text>, n: nat,
                                             i: nat, beyond: nat -> Word)
    requires |s| == |result| + 2 && n < 32 && Edits(script, parent, result) && i <= |script| && Settled(s, n)
    ensures forall h | h in script :: h.a0 <= h.a1 <= |parent|
    ensures EndA(script, i) <= |parent| && EndB(script, i) <= |result|
    ensures OnlyRecorded(s, Recorded(s, script, parent, n, i), n)
    ensures Accounted(Recorded(s, script, parent, n, i), result, parent, n, EndA(script, i), EndB(script, i))
  {
    hide OnlyRecorded, Accounted, Has, RecordedHunk, Settled;
    EditsRanges(script, parent, result);
    if i == 0 {
      NothingRecorded(s, result, parent, n);
    } else {
      RecordedAccounts(s, result, script, parent, n, i - 1, beyond);
      var t, h := Recorded(s, script, parent, n, i - 1), script[i - 1];
      AccountGap(t, result, parent, n, EndA(script, i - 1), EndB(script, i - 1), h.a0, h.b0);
      HunkRecords(s, t, h, parent, n, beyond);
      HunkAccounts(t, result, h, parent, n);
    }
  }

  /** Lines know only the parents before `done`, and no hunk is pending. */
  ghost predicate Settled(s: seq<SLine>, done: nat) {
    forall k | 0 <= k < |s| ::
      && s[k].plost == []
      && (forall m | done <= m < 32 :: !Has(s[k].flag, m))
      && (forall m | done <= m < 32 :: Project(s[k].lost, m) == [])
  }

  lemma NothingRecorded(s: seq<SLine>, result: seq<Text>, parent: seq<Text>, n: nat)
    requires |s| == |result| + 2 && n < 32 && Settled(s, n)
    ensures OnlyRecorded(s, s, n) && Accounted(s, result, parent, n, 0, 0)
  {
    hide Has;
    assert Texts(s[0].plost) == [] && Pending(s, result, n, 0) == [];
  }

  lemma AccountedWhole(s: seq<SLine>, result: seq<Text>, script: seq<Hunk>, parent: seq<Text>, n: nat)
    requires |s| == |result| + 2 && Edits(script, parent, result)
    requires Accounted(s, result, parent, n, EndA(script, |script|), EndB(script, |script|))
    ensures Pending(s, result, n, |result| + 1) == parent && s[|result| + 1].plost == [] && !Has(s[|result| + 1].flag, n)
  {
    hide Has;
    var a, b := EndA(script, |script|), EndB(script, |script|);
    assert parent[a..|parent|] == parent[a..] && result[b..|result|] == result[b..];
    AccountGap(s, result, parent, n, a, b, |parent|, |result|);
    assert parent[..|parent|] == parent;
    assert Own(result, s[|result|].flag, |result|, n) == [];
  }

  /** When the whole diff is recorded, the parent's file can be read off. */
  lemma RecordedReads(s: seq<SLine>, result: seq<Text>, script: seq<Hunk>, parent: seq<Text>, n: nat, beyond: nat -> Word)
    requires |s| == |result| + 2 && n < 32 && Edits(script, parent, result) && Settled(s, n)
    ensures forall h | h in script :: h.a0 <= h.a1 <= |parent|
    ensures var t := Recorded(s, script, parent, n, |script|);
      OnlyRecorded(s, t, n) && Pending(t, result, n, |result| + 1) == parent && t[|result| + 1].plost == [] && !Has(t[|result| + 1].flag, n)
  {
    hide *;
    RecordedAccounts(s, result, script, parent, n, |script|, beyond);
    AccountedWhole(Recorded(s, script, parent, n, |script|), result, script, parent, n);
  }

  // ---------- coalescing ----------

  /** Line `s` after coalescing: parent `n` reads its pending lost lines, every other parent what it read before. */
  ghost predicate Coalesced(s0: SLine, s: SLine, n: nat) {
    && s.plost == [] && s.flag == s0.flag
    && Project(s.lost, n) == Texts(s0.plost)
    && (forall m | 0 <= m < 32 && m != n :: Project(s.lost, m) == Project(s0.lost, m))
  }

  lemma LineCoalesced(l: SLine, n: nat, beyond: nat -> Word)
    requires n < 32 && Project(l.lost, n) == [] && forall e | e in l.plost :: Marks(e.parentMap, n)
    ensures Coalesced(l, CoalescedLine(l, OneShifted(n, beyond)), n)
  {
    hide Project, Marks, OneShifted, CoalescedLines;
    OneShiftedMarks(n, beyond);
    CoalescedReads(l.lost, l.plost, n, OneShifted(n, beyond));
  }

  lemma LineReads(l0: SLine, l: SLine, n: nat, m: nat)
    requires m < 32 && Coalesced(l0, l, n)
    ensures l.flag == l0.flag && Project(l.lost, m) == if m == n then Texts(l0.plost) else Project(l0.lost, m)
  {
    hide Project, Texts;
  }

  lemma {:induction false} AllCoalesced(s0: seq<SLine>, s: seq<SLine>, result: seq<Text>, n: nat, k: nat, m: nat)
    requires k <= |s| == |s0| && m < 32 && forall i | 0 <= i < k :: Coalesced(s0[i], s[i], n)
    ensures Recover(s, result, m, k) == if m == n then Pending(s0, result, n, k) else Recover(s0, result, m, k)
  {
    hide Has, Own, Project, Texts, Coalesced;
    if k > 0 {
      LineReads(s0[k - 1], s[k - 1], n, m);
      AllCoalesced(s0, s, result, n, k - 1, m);
    }
  }

  lemma {:induction false} OthersRecorded(s0: seq<SLine>, s: seq<SLine>, result: seq<Text>, n: nat, m: nat, k: nat)
    requires OnlyRecorded(s0, s, n) && m != n && m < 32 && k <= |s|
    ensures Recover(s, result, m, k) == Recover(s0, result, m, k)
  {
    hide Has;
    if k > 0 {
      OthersRecorded(s0, s, result, n, m, k - 1);
      assert s[k - 1].lost == s0[k - 1].lost;
    }
  }

  lemma DiffedLines(s: seq<SLine>, r: seq<SLine>, n: nat, beyond: nat -> Word)
    requires n < 32 && Settled(s, n) && OnlyRecorded(s, r, n)
    ensures forall i | 0 <= i < |r| - 1 :: Coalesced(r[i], CoalescedAll(r, OneShifted(n, beyond))[i], n)
  {
    hide Coalesced, CoalescedLine, OneShifted, Has, Marks, Project;
    forall i | 0 <= i < |r| - 1 ensures Coalesced(r[i], CoalescedAll(r, OneShifted(n, beyond))[i], n) {
      LineCoalesced(r[i], n, beyond);
    }
  }

  lemma DiffedSettled(s: seq<SLine>, r: seq<SLine>, t: seq<SLine>, n: nat)
    requires n < 32 && Settled(s, n) && OnlyRecorded(s, r, n) && |t| == |r| > 0
    requires forall i | 0 <= i < |r| - 1 :: Coalesced(r[i], t[i], n)
    requires t[|r| - 1] == r[|r| - 1] && r[|r| - 1].plost == []
    ensures Settled(t, n + 1)
  {
    hide Has, Project, Texts, Marks;
    forall k | 0 <= k < |t|
      ensures t[k].plost == []
      ensures forall m | n < m < 32 :: !Has(t[k].flag, m)
      ensures forall m | n < m < 32 :: Project(t[k].lost, m) == []
    {
      if k < |t| - 1 {
        assert Coalesced(r[k], t[k], n);
      }
    }
  }

  lemma DiffedIs(s: seq<SLine>, script: seq<Hunk>, parent: seq<Text>, n: nat, beyond: nat -> Word)
    requires s != [] && n < 64 && forall h | h in script :: h.a0 <= h.a1 <= |parent|
    ensures var r, t := Recorded(s, script, parent, n, |script|), Diffed(s, script, parent, n, beyond);
      t == CoalescedAll(r, OneShifted(n, beyond)) && |t| == |r| == |s| && t[|r| - 1] == r[|r| - 1]
  {
    hide Recorded, OneShifted, CoalescedLine;
  }

  /** combine_diff for parent `n`: its file can be read, and nothing it does disturbs what another parent reads. */
  lemma DiffedReads(s: seq<SLine>, result: seq<Text>, script: seq<Hunk>, parent: seq<Text>, n: nat, beyond: nat -> Word)
    requires |s| == |result| + 2 && n < 32 && Edits(script, parent, result) && Settled(s, n)
    ensures forall h | h in script :: h.a0 <= h.a1 <= |parent|
    ensures var t := Diffed(s, script, parent, n, beyond);
      && Settled(t, n + 1) && Recover(t, result, n, |result| + 1) == parent
      && forall m, k | 0 <= m < 32 && m != n && 0 <= k <= |result| + 1 :: Recover(t, result, m, k) == Recover(s, result, m, k)
  {
    hide *;
    RecordedReads(s, result, script, parent, n, beyond);
    var r, t := Recorded(s, script, parent, n, |script|), Diffed(s, script, parent, n, beyond);
    DiffedIs(s, script, parent, n, beyond);
    DiffedLines(s, r, n, beyond);
    DiffedSettled(s, r, t, n);
    AllCoalesced(r, t, result, n, |result| + 1, n);
    forall m, k | 0 <= m < 32 && m != n && 0 <= k <= |result| + 1 ensures Recover(t, result, m, k) == Recover(s, result, m, k) {
      AllCoalesced(r, t, result, n, k, m);
      OthersRecorded(s, r, result, n, m, k);
    }
  }

  // ---------- reusing an identical parent ----------

  lemma {:induction false} CopiedReads(lost: seq<LLine>, i: nat, j: nat, m: nat)
    requires i != j && i < 64 && m < 64 && Project(lost, i) == []
    ensures Project(Copied(lost, i, j), m) == Project(lost, if m == i then j else m)
  {
    hide Has, Or, Bit;
    if lost != [] {
      assert Copied(lost, i, j)[1..] == Copied(lost[1..], i, j);
      CopiedReads(lost[1..], i, j, m);
      FlagSet(lost[0].parentMap, i, m);
    }
  }

  lemma {:induction false} ReusedReads(s: seq<SLine>, result: seq<Text>, i: nat, j: nat, m: nat, k: nat)
    requires i != j && i < 64 && m < 64 && k < |s|
    requires forall x | 0 <= x < k :: Project(s[x].lost, i) == [] && !Has(s[x].flag, i)
    ensures Recover(Reused(s, i, j), result, m, k) == Recover(s, result, if m == i then j else m, k)
  {
    hide Has, Or, Bit, Copied, Project;
    if k > 0 {
      ReusedReads(s, result, i, j, m, k - 1);
      CopiedReads(s[k - 1].lost, i, j, m);
      FlagSet(s[k - 1].flag, i, m);
    }
  }

  lemma ReusedSettled(s: seq<SLine>, i: nat, j: nat)
    requires j < i < 32 && Settled(s, i)
    ensures Settled(Reused(s, i, j), i + 1)
  {
    hide Has, Or, Bit, Copied, Project;
    forall k, m | 0 <= k < |s| && i < m < 32
      ensures !Has(Reused(s, i, j)[k].flag, m) && Project(Reused(s, i, j)[k].lost, m) == []
    {
      CopiedReads(s[k].lost, i, j, m);
      FlagSet(s[k].flag, i, m);
    }
  }

  // ---------- all parents ----------

  /** One more parent keeps what the earlier ones read; the new one reads what the same parent before it reads, or its own file. */
  lemma LinesStep(m: Merge, beyond: nat -> Word, i: nat)
    requires m.Valid() && i < |m.files| && i < 32 && Settled(LinesAfter(m, beyond, i), i)
    ensures var s, t, j := LinesAfter(m, beyond, i), LinesAfter(m, beyond, i + 1), FirstSame(m.oids, i, 0);
      && Settled(t, i + 1)
      && (forall n, k | 0 <= n < i && 0 <= k <= |m.result| + 1 :: Recover(t, m.result, n, k) == Recover(s, m.result, n, k))
      && (j == i ==> Recover(t, m.result, i, |m.result| + 1) == m.files[i])
      && (j < i ==> forall k | 0 <= k <= |m.result| + 1 :: Recover(t, m.result, i, k) == Recover(s, m.result, j, k))
  {
    hide Has, Recover, Reused, Diffed, Edits;
    var s, j := LinesAfter(m, beyond, i), FirstSame(m.oids, i, 0);
    if j < i {
      ReusedSettled(s, i, j);
      forall n, k | 0 <= n <= i && 0 <= k <= |m.result| + 1
        ensures Recover(Reused(s, i, j), m.result, n, k) == Recover(s, m.result, if n == i then j else n, k)
      {
        ReusedReads(s, m.result, i, j, n, k);
      }
    } else {
      DiffedReads(s, m.result, m.scripts[i], m.files[i], i, beyond);
    }
  }

  lemma NothingSettled(s: seq<SLine>)
    requires forall k | 0 <= k < |s| :: s[k] == SLine([], [], 0)
    ensures Settled(s, 0)
  {
    hide Has;
    forall m | 0 <= m < 32 ensures !Has(0, m) {
      HasNothing(m);
    }
  }

  lemma {:induction false} LinesRead(m: Merge, beyond: nat -> Word, i: nat)
    requires m.Valid() && i <= |m.files| && i <= 32
    ensures Settled(LinesAfter(m, beyond, i), i)
    ensures forall n | 0 <= n < i :: Recover(LinesAfter(m, beyond, i), m.result, n, |m.result| + 1) == m.files[n]
  {
    hide Recover, Edits, Settled, LinesAfter, FirstSame;
    if i == 0 {
      LinesNone(m, beyond);
      NothingSettled(LinesAfter(m, beyond, 0));
    } else {
      LinesRead(m, beyond, i - 1);
      LinesStep(m, beyond, i - 1);
      var j := FirstSame(m.oids, i - 1, 0);
      assert m.files[j] == m.files[i - 1];
    }
  }

  /** Each entry of a column is the line of parent `n` at which a display starting there begins. */
  ghost predicate Numbers(column: seq<nat>, s: seq<SLine>, result: seq<Text>, n: nat) {
    |column| == |s| == |result| + 2 && forall k | 0 <= k < |s| :: column[k] == |Recover(s, result, n, k)| + 1
  }

  lemma NumbersKeep(column: seq<nat>, s: seq<SLine>, n: nat, t: seq<SLine>, n': nat, result: seq<Text>)
    requires Numbers(column, s, result, n) && |t| == |s|
    requires forall k | 0 <= k <= |result| + 1 :: Recover(t, result, n', k) == Recover(s, result, n, k)
    ensures Numbers(column, t, result, n')
  {
    hide Recover;
  }

  /** One more parent, whose column was written or copied from the same parent before it, leaves all columns right. */
  lemma StillNumbered(m: Merge, beyond: nat -> Word, i: nat, cols0: seq<seq<nat>>, cols: seq<seq<nat>>)
    requires m.Valid() && i < |m.files| == |cols0| == |cols| && i < 32
    requires forall n | 0 <= n < i :: Numbers(cols0[n], LinesAfter(m, beyond, i), m.result, n) && cols[n] == cols0[n]
    requires var j := FirstSame(m.oids, i, 0);
      if j < i then cols[i] == cols0[j] else Numbers(cols[i], LinesAfter(m, beyond, i + 1), m.result, i)
    ensures forall n | 0 <= n < i + 1 :: Numbers(cols[n], LinesAfter(m, beyond, i + 1), m.result, n)
  {
    hide Recover, LinesAfter, Settled, FirstSame, Numbers, Edits;
    LinesRead(m, beyond, i);
    LinesStep(m, beyond, i);
    var s, t, j := LinesAfter(m, beyond, i), LinesAfter(m, beyond, i + 1), FirstSame(m.oids, i, 0);
    forall n | 0 <= n < i + 1 ensures Numbers(cols[n], t, m.result, n) {
      if n < i {
        NumbersKeep(cols[n], s, n, t, n, m.result);
      } else if j < i {
        NumbersKeep(cols[n], s, j, t, n, m.result);
      }
    }
  }

  /** Every parent's file can be read off the lines in the end. */
  ghost predicate AllRead(m: Merge, beyond: nat -> Word)
    requires m.Valid()
  {
    forall n | 0 <= n < |m.files| :: Recover(LinesAfter(m, beyond, |m.files|), m.result, n, |m.result| + 1) == m.files[n]
  }

  // ---------- where the word ends ----------

  /** A merge to an empty file: the first parent had line "x", the 32nd "x" and "y", every other one "z". */
  function Octopus(parents: nat): (m: Merge) {
    Merge([],
          seq(parents, i => if i == 0 then 0 else if i == 31 then 31 else 1),
          seq(parents, i requires 0 <= i => OctopusScript(i)),
          seq(parents, i requires 0 <= i => OctopusFile(i)))
  }

  function OctopusFile(i: nat): seq<Text> {
    if i == 0 then ["x"] else if i == 31 then ["x", "y"] else ["z"]
  }

  function OctopusScript(i: nat): seq<Hunk> {
    [Hunk(0, if i == 31 then 2 else 1, 0, 0)]
  }

  /** Losing everything is a diff against the empty file. */
  lemma AllLost(file: seq<Text>)
    ensures Edits([Hunk(0, |file|, 0, 0)], file, [])
  {
    var h := Hunk(0, |file|, 0, 0);
    assert EndA([h], 0) == 0 && EndA([h], 1) == |file| && EndB([h], 0) == 0 && EndB([h], 1) == 0;
    assert file[0..0] == [] && file[|file|..] == [];
  }

  lemma OctopusEdits(i: nat)
    ensures Edits(OctopusScript(i), OctopusFile(i), [])
  {
    hide Edits;
    AllLost(OctopusFile(i));
    assert |OctopusFile(i)| == if i == 31 then 2 else 1;
  }

  lemma OctopusIsValid(parents: nat)
    requires parents <= 64
    ensures Octopus(parents).Valid()
  {
    hide Edits;
    var m := Octopus(parents);
    forall i | 0 <= i < parents ensures Edits(m.scripts[i], m.files[i], m.result) {
      OctopusEdits(i);
    }
  }

  /** The bits of the parents before `i` that had line "z". */
  ghost function Copies(i: nat): Word
    requires i <= 64
  {
    if i <= 2 then Bit(1) else if i == 32 then Copies(i - 1) else Or(Copies(i - 1), Bit(i - 1))
  }

  lemma {:induction false} CopiesHave(i: nat, n: nat)
    requires 2 <= i <= 64 && 1 <= n < i && n != 31
    ensures Has(Copies(i), n)
  {
    hide Has, Bit, Or;
    if i == 2 {
      HasBit(1, 1);
    } else {
      if n < i - 1 {
        CopiesHave(i - 1, n);
      }
      HasBit(i - 1, n);
      HasOr(Copies(i - 1), Bit(i - 1), n);
    }
  }

  /** The lines after `i` parents of it, `marked` being what matching "x" for parent 31 made of its bits. */
  ghost function OctopusLines(i: nat, marked: Word): seq<SLine>
    requires i <= 64
  {
    [SLine(if i == 0 then []
           else if i == 1 then [LLine("x", Bit(0))]
           else if i <= 31 then [LLine("x", Bit(0)), LLine("z", Copies(i))]
           else [LLine("x", marked), LLine("z", Copies(i)), LLine("y", Bit(31))], [], 0),
     SLine([], [], 0)]
  }

  lemma XMatches(a: seq<Text>, b: seq<Text>)
    requires a == ["x", "z"] && b == ["x", "y"]
    ensures Direct(a, b, 2, 2) == NEW && Direct(a, b, 2, 1) == BASE && Direct(a, b, 1, 1) == MATCH
  {
    assert "y"[0] != "z"[0] && "x"[0] != "z"[0] && "x"[0] != "y"[0];
    assert Lcs(a, b, 1, 1) == 1;
    assert Lcs(a, b, 1, 2) == 1 && Lcs(a, b, 2, 1) == 1;
  }

  /** Lines "x" and "z" against a new "z" or a new "x" and "y". */
  lemma MatchOfX(x: LLine, z: LLine, x': LLine, y': LLine, mark: Word)
    requires x.text == x'.text == "x" && z.text == "z" && y'.text == "y"
    ensures CoalescedLines([x], [z], mark) == [x, z]
    ensures CoalescedLines([x, z], [x', y'], mark) == [Marked(x, mark), z, y']
  {
    hide Or;
    assert Walked([x], [z], mark, 1, 1, []) == [x, z] by {
      assert Direct(Texts([x]), Texts([z]), 1, 1) == NEW;
      assert Walked([x], [z], mark, 1, 0, [z] + []) == [x] + ([z] + []);
    }
    var base, new_ := [x, z], [x', y'];
    XMatches(Texts(base), Texts(new_));
    var tail := [z] + ([y'] + []);
    assert Walked(base, new_, mark, 1, 1, tail) == [Marked(x, mark)] + tail;
    assert Walked(base, new_, mark, 2, 1, [y'] + []) == [Marked(x, mark)] + tail;
  }

  /** Parent `n` lost its first `k` lines, all of them, in front of an empty result. */
  lemma FirstHunk(lost: seq<LLine>, parent: seq<Text>, n: nat, beyond: nat -> Word)
    requires n < 64
    ensures Diffed([SLine(lost, [], 0), SLine([], [], 0)], [Hunk(0, |parent|, 0, 0)], parent, n, beyond)
      == [SLine(CoalescedLines(lost, LostLines(parent, n), OneShifted(n, beyond)), [], 0), SLine([], [], 0)]
  {
    hide OneShifted, CoalescedLines, Bit, Or;
    var s, h := [SLine(lost, [], 0), SLine([], [], 0)], Hunk(0, |parent|, 0, 0);
    var script := [h];
    assert Recorded(s, script, parent, n, 0) == s;
    var t := Recorded(s, script, parent, n, 1);
    assert t == RecordedHunk(s, h, parent, n);
    assert parent[0..|parent|] == parent && [] + LostLines(parent, n) == LostLines(parent, n);
    assert t[0] == SLine(lost, LostLines(parent, n), 0) && t[1] == SLine([], [], 0);
    assert CoalescedAll(t, OneShifted(n, beyond))[1] == t[1];
  }

  /** Only line "z" has the bit of parent 1, and gets that of parent `n`. */
  lemma OctopusReuses(n: nat, beyond: nat -> Word)
    requires 1 < n < 64 && n != 31
    ensures var marked := Or(Bit(0), OneShifted(31, beyond));
      Reused(OctopusLines(n, marked), n, 1) == OctopusLines(n + 1, marked)
  {
    hide Has, Or, Bit, OneShifted;
    var marked := Or(Bit(0), OneShifted(31, beyond));
    assert !Has(Bit(0), 1) && !Has(Bit(31), 1) && !Has(marked, 1) && !Has(0, 1) by {
      HasBit(0, 1);
      HasBit(31, 1);
      OneShiftedHas(31, beyond, 1);
      HasOr(Bit(0), OneShifted(31, beyond), 1);
      HasNothing(1);
    }
    CopiesHave(n, 1);
    assert Copies(n + 1) == Or(Copies(n), Bit(n));
    var s, t := OctopusLines(n, marked), OctopusLines(n + 1, marked);
    assert Copied(s[0].lost, n, 1) == t[0].lost;
    assert Copied([], n, 1) == [];
  }

  lemma FirstIsKept(lost: seq<LLine>, mark: Word)
    ensures CoalescedLines([], lost, mark) == lost
  {
  }

  lemma OctopusDiffs(n: nat, beyond: nat -> Word)
    requires n == 0 || n == 1 || n == 31
    ensures var m, marked := Octopus(n + 1), Or(Bit(0), OneShifted(31, beyond));
      m.Valid() && Diffed(OctopusLines(n, marked), m.scripts[n], m.files[n], n, beyond) == OctopusLines(n + 1, marked)
  {
    hide Or, Bit, OneShifted, Diffed, CoalescedLines;
    OctopusIsValid(n + 1);
    if n == 0 {
      FirstHunk([], ["x"], 0, beyond);
      assert LostLines(["x"], 0) == [LLine("x", Bit(0))];
      FirstIsKept(LostLines(["x"], 0), OneShifted(0, beyond));
    } else if n == 1 {
      FirstHunk([LLine("x", Bit(0))], ["z"], 1, beyond);
      assert LostLines(["z"], 1) == [LLine("z", Bit(1))];
      MatchOfX(LLine("x", Bit(0)), LLine("z", Bit(1)), LLine("x", 0), LLine("y", 0), OneShifted(1, beyond));
    } else {
      var x, y, z := LLine("x", Bit(31)), LLine("y", Bit(31)), LLine("z", Copies(31));
      FirstHunk([LLine("x", Bit(0)), z], ["x", "y"], 31, beyond);
      assert LostLines(["x", "y"], 31) == [x, y];
      MatchOfX(LLine("x", Bit(0)), z, x, y, OneShifted(31, beyond));
      assert Copies(32) == Copies(31);
    }
  }

  lemma OctopusAt(parents: nat, n: nat)
    requires n < parents
    ensures var m, k := Octopus(parents), Octopus(n + 1);
      && |m.oids| == |m.scripts| == |m.files| == parents && |k.scripts| == |k.files| == n + 1 && m.result == []
      && m.scripts[n] == k.scripts[n] && m.files[n] == k.files[n]
      && FirstSame(m.oids, n, 0) == if n == 0 || n == 1 || n == 31 then n else 1
  {
    if n == 31 {
      OnlyLater(Octopus(parents).oids, 31, 0);
    }
  }

  lemma {:induction false} OnlyLater(oids: seq<int>, i: nat, j: nat)
    requires j <= i < |oids| && forall k | j <= k < i :: oids[k] != oids[i]
    ensures FirstSame(oids, i, j) == i
    decreases i - j
  {
    if j < i {
      OnlyLater(oids, i, j + 1);
    }
  }

  lemma OctopusStarts(parents: nat, beyond: nat -> Word)
    requires Octopus(parents).Valid()
    ensures forall marked :: LinesAfter(Octopus(parents), beyond, 0) == OctopusLines(0, marked)
  {
    assert LinesAfter(Octopus(parents), beyond, 0) == [SLine([], [], 0), SLine([], [], 0)];
  }

  lemma {:induction false} OctopusRuns(parents: nat, beyond: nat -> Word, i: nat)
    requires parents <= 64 && i <= parents
    ensures Octopus(parents).Valid()
    ensures LinesAfter(Octopus(parents), beyond, i) == OctopusLines(i, Or(Bit(0), OneShifted(31, beyond)))
  {
    hide Or, Bit, OneShifted, Diffed, Reused, OctopusLines, Octopus, Merge.Valid, FirstSame;
    OctopusIsValid(parents);
    if i == 0 {
      OctopusStarts(parents, beyond);
    } else {
      var n := i - 1;
      OctopusRuns(parents, beyond, n);
      OctopusAt(parents, n);
      if n == 0 || n == 1 || n == 31 {
        OctopusDiffs(n, beyond);
      } else {
        OctopusReuses(n, beyond);
      }
    }
  }

  /** With a 33rd parent, a line lost from the 32nd is read as lost from it too. */
  lemma OctopusFails(parents: nat, beyond: nat -> Word)
    requires 33 <= parents <= 64
    ensures Octopus(parents).Valid() && Octopus(parents).files[32] == ["z"]
    ensures Recover(LinesAfter(Octopus(parents), beyond, parents), [], 32, 1) == ["x", "z"]
  {
    hide Has, Or, Bit, OneShifted, LinesAfter, Copies, Edits;
    OctopusRuns(parents, beyond, parents);
    OneShiftedHas(31, beyond, 32);
    HasOr(Bit(0), OneShifted(31, beyond), 32);
    HasBit(31, 32);
    CopiesHave(parents, 32);
    var s := OctopusLines(parents, Or(Bit(0), OneShifted(31, beyond)));
    var lost := s[0].lost;
    assert lost == [lost[0]] + ([lost[1]] + ([lost[2]] + []));
    ProjectCons(lost[2], [], 32);
    ProjectCons(lost[1], [lost[2]] + [], 32);
    ProjectCons(lost[0], [lost[1]] + ([lost[2]] + []), 32);
    assert Recover(s, [], 32, 0) == [];
  }

  /** Every parent of every merge can be read back exactly when there are at most 32 of them. */
  lemma ReadableToThirtyTwo(parents: nat, beyond: nat -> Word)
    requires parents <= 64
    ensures (forall m: Merge | m.Valid() && |m.files| == parents :: AllRead(m, beyond)) <==> parents <= 32
  {
    if parents <= 32 {
      forall m: Merge | m.Valid() && |m.files| == parents ensures AllRead(m, beyond) {
        LinesRead(m, beyond, parents);
      }
    } else {
      OctopusFails(parents, beyond);
      assert !AllRead(Octopus(parents), beyond);
    }
  }

  // ---------- the state ----------

  class Combiner {
    const result: seq<Text>
    const sline: array<SLine>
    const pLno: array2<nat>
    const parents: nat
    const beyond: nat -> Word      // what C leaves open of shifting an int too far

    // the hunk being consumed
    var lno: nat
    var nb: nat
    var bucket: nat

    ghost predicate Shape() {
      && sline.Length == |result| + 2 && pLno.Length0 == |result| + 2 && pLno.Length1 == parents <= 64
    }

    constructor (result: seq<Text>, parents: nat, beyond: nat -> Word)
      requires parents <= 64
      ensures Shape() && this.result == result && this.parents == parents && this.beyond == beyond
      ensures sline[..] == seq(|result| + 2, _ => SLine([], [], 0))
      ensures fresh(sline) && fresh(pLno)
    {
      this.result, this.parents, this.beyond := result, parents, beyond;
      sline := new SLine[|result| + 2](_ => SLine([], [], 0));
      pLno := new nat[|result| + 2, parents]((i, j) => 0);
      lno, nb, bucket := 0, 0, 0;
    }

    /** append_lost. */
    method AppendLost(k: nat, n: nat, text: Text)
      requires Shape() && k < sline.Length && n < 64
      modifies sline
      ensures sline[..] == old(sline[..])[k := old(sline[k]).(plost := old(sline[k]).plost + [LLine(text, Bit(n))])]
    {
      sline[k] := sline[k].(plost := sline[k].plost + [LLine(text, Bit(n))]);
    }

    /** The numbers of the other parents are as they were. */
    twostate predicate OtherColumns(n: nat)
      requires Shape()
      reads pLno
    {
      forall k, m | 0 <= k < |result| + 2 && 0 <= m < parents && m != n :: pLno[k, m] == old(pLno[k, m])
    }

    /** The columns of the table, one a parent. */
    ghost function Columns(): (cols: seq<seq<nat>>)
      requires Shape()
      reads pLno
      ensures |cols| == parents
      ensures forall n | 0 <= n < parents :: |cols[n]| == |result| + 2 && forall k | 0 <= k < |result| + 2 :: cols[n][k] == pLno[k, n]
    {
      seq(parents, n requires 0 <= n < parents reads pLno =>
        seq(|result| + 2, k requires 0 <= k < |result| + 2 reads pLno => pLno[k, n]))
    }

    /** consume_hunk, told the numbers of the header "-ob,on +nb,nn" (counted from one). */
    method ConsumeHunk(ob: nat, on: nat, nb: nat, nn: nat, n: nat)
      requires Shape() && n < parents
      requires if nn == 0 then nb <= |result| else 1 <= nb && nb + nn <= |result| + 1
      modifies this, pLno
      ensures lno == nb && bucket == (if nn == 0 then nb else nb - 1) && this.nb == if nn == 0 && nb == 0 then 1 else nb
      // the hunk starts at this line of the parent
      ensures pLno[this.nb - 1, n] == ob
      ensures forall k, m | 0 <= k < |result| + 2 && 0 <= m < parents && !(k == this.nb - 1 && m == n) :: pLno[k, m] == old(pLno[k, m])
    {
      this.nb := nb;
      lno := nb;
      if nn == 0 {
        bucket := nb;
        if nb == 0 {
          this.nb := 1;
        }
      } else {
        bucket := nb - 1;
      }
      pLno[this.nb - 1, n] := ob;
    }

    /** consume_line for a '-' line and for a '+' line. */
    method ConsumeMinus(n: nat, text: Text)
      requires Shape() && bucket < sline.Length && n < 64
      modifies sline
      ensures sline[..] == old(sline[..])[bucket := old(sline[bucket]).(plost := old(sline[bucket]).plost + [LLine(text, Bit(n))])]
    {
      AppendLost(bucket, n, text);
    }

    method ConsumePlus(n: nat)
      requires Shape() && 1 <= lno <= sline.Length && n < 64
      modifies this`lno, sline
      ensures lno == old(lno) + 1
      ensures sline[..] == old(sline[..])[old(lno) - 1 := old(sline[lno - 1]).(flag := Or(old(sline[lno - 1]).flag, Bit(n)))]
    {
      sline[lno - 1] := sline[lno - 1].(flag := Or(sline[lno - 1].flag, Bit(n)));
      lno := lno + 1;
    }

    // ---------- consuming the diff of one parent ----------

    static lemma HunkStart(s: seq<SLine>, a: nat, b: nat, parent: seq<Text>, n: nat)
      requires n < 64 && a <= |parent|
      ensures RecordedHunk(s, Hunk(a, a, b, b), parent, n) == s
    {
      assert LostLines(parent[a..a], n) == [];
      assert forall k | 0 <= k < |s| :: RecordedHunk(s, Hunk(a, a, b, b), parent, n)[k] == s[k];
    }

    static lemma HunkMinus(s: seq<SLine>, a: nat, k: nat, b: nat, parent: seq<Text>, n: nat)
      requires n < 64 && a <= k < |parent| && b < |s|
      ensures var t := RecordedHunk(s, Hunk(a, k, b, b), parent, n);
        RecordedHunk(s, Hunk(a, k + 1, b, b), parent, n) == t[b := t[b].(plost := t[b].plost + [LLine(parent[k], Bit(n))])]
    {
      hide Bit;
      assert parent[a..k + 1] == parent[a..k] + [parent[k]];
      var lost, e := LostLines(parent[a..k], n), LLine(parent[k], Bit(n));
      assert LostLines(parent[a..k + 1], n) == lost + [e];
      assert s[b].plost + (lost + [e]) == s[b].plost + lost + [e];
    }

    static lemma HunkPlus(s: seq<SLine>, a: nat, a1: nat, b: nat, k: nat, parent: seq<Text>, n: nat)
      requires n < 64 && a <= a1 <= |parent| && b <= k < |s|
      ensures var t := RecordedHunk(s, Hunk(a, a1, b, k), parent, n);
        RecordedHunk(s, Hunk(a, a1, b, k + 1), parent, n) == t[k := t[k].(flag := Or(t[k].flag, Bit(n)))]
    {
      hide Bit, Or;
    }

    /** One hunk: its header, its '-' lines and then its '+' lines. */
    method ConsumeOne(h: Hunk, parent: seq<Text>, n: nat)
      requires Shape() && n < parents && h.a0 <= h.a1 <= |parent| && h.b0 <= h.b1 <= |result|
      modifies this, sline, pLno
      ensures sline[..] == RecordedHunk(old(sline[..]), h, parent, n) && OtherColumns(n)
    {
      hide RecordedHunk, Bit, Or;
      ghost var s := sline[..];
      var on, nn := h.a1 - h.a0, h.b1 - h.b0;
      ConsumeHunk(if on > 0 then h.a0 + 1 else h.a0, on, if nn > 0 then h.b0 + 1 else h.b0, nn, n);
      HunkStart(s, h.a0, h.b0, parent, n);
      for k := h.a0 to h.a1
        invariant OtherColumns(n)
        invariant bucket == h.b0 && lno == if nn > 0 then h.b0 + 1 else h.b0
        invariant sline[..] == RecordedHunk(s, Hunk(h.a0, k, h.b0, h.b0), parent, n)
      {
        HunkMinus(s, h.a0, k, h.b0, parent, n);
        ConsumeMinus(n, parent[k]);
      }
      for k := h.b0 to h.b1
        invariant OtherColumns(n) && (nn > 0 ==> lno == k + 1)
        invariant sline[..] == RecordedHunk(s, Hunk(h.a0, h.a1, h.b0, k), parent, n)
      {
        HunkPlus(s, h.a0, h.a1, h.b0, k, parent, n);
        ConsumePlus(n);
      }
    }

    method ConsumeDiff(script: seq<Hunk>, parent: seq<Text>, n: nat)
      requires Shape() && n < parents && Edits(script, parent, result)
      modifies this, sline, pLno
      ensures forall h | h in script :: h.a0 <= h.a1 <= |parent|
      ensures sline[..] == Recorded(old(sline[..]), script, parent, n, |script|) && OtherColumns(n)
    {
      hide RecordedHunk;
      EditsRanges(script, parent, result);
      for i := 0 to |script|
        invariant sline[..] == Recorded(old(sline[..]), script, parent, n, i) && OtherColumns(n)
      {
        ConsumeOne(script[i], parent, n);
      }
    }

    // ---------- numbering and coalescing ----------

    /** How many of the lost lines parent `n` had. */
    static method CountLost(lost: seq<LLine>, n: nat) returns (c: nat)
      ensures c == |Project(lost, n)|
    {
      hide Has;
      c := 0;
      var ll := lost;
      while ll != []
        invariant c + |Project(ll, n)| == |Project(lost, n)|
      {
        if Has(ll[0].parentMap, n) {
          c := c + 1;
        }
        ll := ll[1..];
      }
    }

    /** Coalesce one line, if parent `n` lost anything in front of it. */
    method CoalesceAt(k: nat, n: nat)
      requires Shape() && k < sline.Length
      modifies sline
      ensures sline[..] == old(sline[..])[k := CoalescedLine(old(sline[k]), OneShifted(n, beyond))]
    {
      hide OneShifted, Walked;
      if sline[k].plost != [] {
        var lost := CoalesceLines(sline[k].lost, sline[k].plost, n, beyond);
        sline[k] := sline[k].(lost := lost, plost := []);
      }
    }

    /** Lines before `k` are coalesced, those from `k` on are as they were. */
    static ghost predicate CoalescedTo(s0: seq<SLine>, s: seq<SLine>, mark: Word, k: nat) {
      && |s| == |s0| && k <= |s|
      && (forall i | 0 <= i < k :: s[i] == CoalescedLine(s0[i], mark))
      && (forall i | k <= i < |s| :: s[i] == s0[i])
    }

    /** Each entry of column `n` before `upTo` is the parent line at which a display starting there begins. */
    ghost predicate Numbered(s: seq<SLine>, n: nat, upTo: nat)
      requires Shape() && n < parents && upTo <= sline.Length == |s|
      reads pLno
    {
      forall k | 0 <= k < upTo :: pLno[k, n] == |Recover(s, result, n, k)| + 1
    }

    lemma NumberedFrame(s: seq<SLine>, t: seq<SLine>, n: nat, k: nat)
      requires Shape() && n < parents && k < sline.Length == |s| == |t| && s[..k] == t[..k]
      requires Numbered(s, n, k + 1)
      ensures Numbered(t, n, k + 1) && Recover(t, result, n, k) == Recover(s, result, n, k)
    {
      hide Recover;
      RecoverFrame(s, t, result, n, k);
      forall j | 0 <= j < k + 1 ensures pLno[j, n] == |Recover(t, result, n, j)| + 1 {
        assert s[..j] == s[..k][..j] && t[..j] == t[..k][..j];
        RecoverFrame(s, t, result, n, j);
      }
    }

    static lemma CoalescedStep(s0: seq<SLine>, s: seq<SLine>, mark: Word, k: nat)
      requires CoalescedTo(s0, s, mark, k) && k < |s|
      ensures CoalescedTo(s0, s[k := CoalescedLine(s[k], mark)], mark, k + 1)
    {
      hide CoalescedLine;
    }

    /** One turn of the numbering loop. */
    method NumberOne(k: nat, n: nat, p: nat) returns (q: nat)
      requires Shape() && n < parents && k <= |result|
      requires p == |Recover(sline[..], result, n, k)| + 1 && Numbered(sline[..], n, k)
      modifies sline, pLno
      ensures sline[..] == old(sline[..])[k := CoalescedLine(old(sline[k]), OneShifted(n, beyond))]
      ensures q == |Recover(sline[..], result, n, k + 1)| + 1 && Numbered(sline[..], n, k + 1)
      ensures OtherColumns(n)
    {
      hide CoalescedLine, Recover, OneShifted, Has;
      pLno[k, n] := p;
      ghost var s := sline[..];
      CoalesceAt(k, n);
      ghost var t := sline[..];
      NumberedFrame(s, t, n, k);
      RecoverStep(t, result, n, k);
      var c := CountLost(sline[k].lost, n);
      q := p + c;
      if k < |result| && !Has(sline[k].flag, n) {
        q := q + 1;
      }
    }

    static lemma RecoverStep(s: seq<SLine>, result: seq<Text>, n: nat, k: nat)
      requires k < |s|
      ensures |Recover(s, result, n, k + 1)| == |Recover(s, result, n, k)| + |Project(s[k].lost, n)| +
        if k < |result| && !Has(s[k].flag, n) then 1 else 0
    {
      hide Has;
    }

    /** The numbering loop of combine_diff. */
    method AssignNumbers(n: nat)
      requires Shape() && n < parents
      modifies sline, pLno
      ensures sline[..] == CoalescedAll(old(sline[..]), OneShifted(n, beyond))
      ensures Numbered(sline[..], n, |result| + 2)
      ensures OtherColumns(n)
    {
      hide CoalescedLine, Recover, OneShifted;
      ghost var s0, mark := sline[..], OneShifted(n, beyond);
      var p := 1;
      var k := 0;
      RecoverNothing(s0, result, n);
      while k <= |result|
        invariant 0 <= k <= |result| + 1
        invariant CoalescedTo(s0, sline[..], mark, k)
        invariant p == |Recover(sline[..], result, n, k)| + 1 && Numbered(sline[..], n, k)
        invariant OtherColumns(n)
      {
        CoalescedStep(s0, sline[..], mark, k);
        p := NumberOne(k, n, p);
        k := k + 1;
      }
      pLno[k, n] := p;
      assert sline[..] == CoalescedAll(s0, mark);
    }

    static lemma RecoverNothing(s: seq<SLine>, result: seq<Text>, n: nat)
      ensures Recover(s, result, n, 0) == []
    {
    }

    // ---------- one parent after the other ----------

    /** combine_diff for a result that was not deleted. */
    method CombineDiff(script: seq<Hunk>, file: seq<Text>, n: nat)
      requires Shape() && n < parents && Edits(script, file, result)
      modifies this, sline, pLno
      ensures forall h | h in script :: h.a0 <= h.a1 <= |file|
      ensures sline[..] == Diffed(old(sline[..]), script, file, n, beyond)
      ensures Numbers(Columns()[n], sline[..], result, n)
      ensures forall m | 0 <= m < parents && m != n :: Columns()[m] == old(Columns()[m])
    {
      hide Recorded, CoalescedAll, OneShifted, Recover;
      ConsumeDiff(script, file, n);
      AssignNumbers(n);
    }

    static method CopyBits(lost: seq<LLine>, i: nat, j: nat) returns (r: seq<LLine>)
      requires i < 64
      ensures r == Copied(lost, i, j)
    {
      hide Has, Bit, Or;
      r := [];
      for k := 0 to |lost|
        invariant r == Copied(lost, i, j)[..k]
      {
        var ll := lost[k];
        if Has(ll.parentMap, j) {
          ll := Marked(ll, Bit(i));
        }
        r := r + [ll];
      }
    }

    /** reuse_combine_diff. */
    method ReuseCombineDiff(i: nat, j: nat)
      requires Shape() && j < i < parents
      modifies sline, pLno
      ensures sline[..] == Reused(old(sline[..]), i, j)
      ensures Columns()[i] == old(Columns()[j])
      ensures forall m | 0 <= m < parents && m != i :: Columns()[m] == old(Columns()[m])
    {
      hide Has, Bit, Or, Copied;
      var k := 0;
      while k <= |result|
        invariant 0 <= k <= |result| + 1
        invariant forall x | 0 <= x < k :: sline[x] == ReusedLine(old(sline[x]), i, j)
        invariant forall x | k <= x < |result| + 2 :: sline[x] == old(sline[x])
        invariant forall x | 0 <= x < k :: pLno[x, i] == old(pLno[x, j])
        invariant OtherColumns(i)
      {
        pLno[k, i] := pLno[k, j];
        var lost := CopyBits(sline[k].lost, i, j);
        sline[k] := sline[k].(lost := lost);
        if Has(sline[k].flag, j) {
          sline[k] := sline[k].(flag := Or(sline[k].flag, Bit(i)));
        }
        k := k + 1;
      }
      pLno[k, i] := pLno[k, j];
      assert sline[..] == Reused(old(sline[..]), i, j);
    }

    /** One turn of the parents' loop of show_patch_diff: an identical earlier parent is reused, any other one is diffed. */
    method ShowParent(m: Merge, i: nat)
      requires Shape() && m.Valid() && m.result == result && i < |m.files| == parents && sline[..] == LinesAfter(m, beyond, i)
      modifies this, sline, pLno
      ensures sline[..] == LinesAfter(m, beyond, i + 1)
      ensures forall n | 0 <= n < i :: Columns()[n] == old(Columns()[n])
      ensures var j := FirstSame(m.oids, i, 0);
        if j < i then Columns()[i] == old(Columns()[j]) else Numbers(Columns()[i], sline[..], result, i)
    {
      hide Recover, Reused, Diffed, FirstSame, Numbers, Merge.Valid, LinesAfter, Edits;
      MergeMeans(m);
      var j := 0;
      while j < i && m.oids[i] != m.oids[j]
        invariant 0 <= j <= i && FirstSame(m.oids, i, 0) == FirstSame(m.oids, i, j)
        invariant sline[..] == old(sline[..]) && Columns() == old(Columns())
      {
        SameLater(m.oids, i, j);
        j := j + 1;
      }
      SameHere(m.oids, i, j);
      LinesNext(m, beyond, i);
      if j < i {
        ReuseCombineDiff(i, j);
      } else {
        CombineDiff(m.scripts[i], m.files[i], i);
      }
    }

    /** The whole loop. */
    method ShowPatchDiff(m: Merge)
      requires Shape() && m.Valid() && m.result == result && |m.files| == parents
      requires sline[..] == seq(|result| + 2, _ => SLine([], [], 0))
      modifies this, sline, pLno
      ensures sline[..] == LinesAfter(m, beyond, parents)
      // with up to 32 parents, each can be read off the lines, and its column numbers it
      ensures parents <= 32 ==> AllRead(m, beyond) && forall n | 0 <= n < parents :: Numbers(Columns()[n], sline[..], result, n)
    {
      hide Numbers, AllRead, Merge.Valid, LinesAfter, FirstSame;
      LinesNone(m, beyond);
      for i := 0 to parents
        invariant sline[..] == LinesAfter(m, beyond, i)
        invariant parents <= 32 ==> forall n | 0 <= n < i :: Numbers(Columns()[n], sline[..], result, n)
      {
        ghost var cols := Columns();
        ShowParent(m, i);
        if parents <= 32 {
          StillNumbered(m, beyond, i, cols, Columns());
        }
      }
      if parents <= 32 {
        ReadableToThirtyTwo(parents, beyond);
      }
    }
  }

  lemma LinesNone(m: Merge, beyond: nat -> Word)
    requires m.Valid()
    ensures LinesAfter(m, beyond, 0) == seq(|m.result| + 2, _ => SLine([], [], 0))
  {
  }

  lemma MergeMeans(m: Merge)
    requires m.Valid()
    ensures |m.oids| == |m.scripts| == |m.files| && forall i | 0 <= i < |m.files| :: Edits(m.scripts[i], m.files[i], m.result)
  {
  }

  lemma SameLater(oids: seq<int>, i: nat, j: nat)
    requires j < i < |oids| && oids[j] != oids[i]
    ensures FirstSame(oids, i, j) == FirstSame(oids, i, j + 1)
  {
  }

  lemma SameHere(oids: seq<int>, i: nat, j: nat)
    requires j <= i < |oids| && oids[j] == oids[i]
    ensures FirstSame(oids, i, j) == j
  {
  }
}
