/**
 The patch that add-patch.c emits for the chosen hunks: merging neighbours, shifting offsets,
 and what applying the result does to the file.
 */
module ChosenPatch {
  import opened Image
  import opened Apply
  import opened AddPatch
  import opened Wrappers

  // ---------- hunks in their files ----------

  /**
   The side a patch is applied to is the old one, or the new one when the patch is applied in
   reverse; the other side is what it leaves. Positions count from zero.
   */
  function Pre(h: Hunk, rev: bool): int {
    (if rev then h.header.newOffset else h.header.oldOffset) - 1
  }

  function Post(h: Hunk, rev: bool): int {
    (if rev then h.header.oldOffset else h.header.newOffset) - 1
  }

  function PreEnd(h: Hunk, rev: bool): int {
    Pre(h, rev) + if rev then h.header.newCount else h.header.oldCount
  }

  function PostEnd(h: Hunk, rev: bool): int {
    Post(h, rev) + if rev then h.header.oldCount else h.header.newCount
  }

  ghost predicate InFile(lines: seq<Text>, file: seq<Text>, from: int, to: int) {
    0 <= from <= to <= |file| && file[from..to] == lines
  }

  /** The hunk's lines are found in both files where its header says. */
  ghost predicate HunkOk(plain: seq<PatchLine>, rev: bool, o: seq<Text>, n: seq<Text>, h: Hunk) {
    && h.start < h.end <= |plain| && h.delta == 0
    && 0 <= Pre(h, rev) < PreEnd(h, rev) <= |o| && 0 <= Post(h, rev) < PostEnd(h, rev) <= |n|
    && var lines := plain[h.start..h.end];
      && HunkLines(lines) && HasChange(lines) && h.splittableInto == Groups(lines)
      && InFile(OldLines(lines, rev), o, Pre(h, rev), PreEnd(h, rev))
      && InFile(NewLines(lines, rev), n, Post(h, rev), PostEnd(h, rev))
      // only the ends of the files take away context
      && (IsChange(plain[h.start]) ==> Pre(h, rev) == Post(h, rev) == 0)
      && (IsChange(plain[h.end - 1]) ==> PreEnd(h, rev) == |o| && PostEnd(h, rev) == |n|)
  }

  /** Two hunks with at least one line between them. */
  ghost predicate Apart(rev: bool, o: seq<Text>, n: seq<Text>, g: Hunk, h: Hunk) {
    && g.end <= h.start && 0 <= PreEnd(g, rev) < Pre(h, rev) <= |o| && 0 <= PostEnd(g, rev) < Post(h, rev) <= |n|
    && Pre(h, rev) - PreEnd(g, rev) == Post(h, rev) - PostEnd(g, rev)
    && o[PreEnd(g, rev)..Pre(h, rev)] == n[PostEnd(g, rev)..Post(h, rev)]
  }

  /** Two pieces that share the context between them. */
  ghost predicate Sharing(plain: seq<PatchLine>, rev: bool, g: Hunk, h: Hunk) {
    && Shares(plain, g, h) && g.splittableInto == h.splittableInto == 1
    && Pre(h, rev) == PreEnd(g, rev) - (g.end - h.start)
    && Post(h, rev) == PostEnd(g, rev) - (g.end - h.start)
  }

  ghost predicate Neighbours(plain: seq<PatchLine>, rev: bool, o: seq<Text>, n: seq<Text>, g: Hunk, h: Hunk) {
    Apart(rev, o, n, g, h) || Sharing(plain, rev, g, h)
  }

  /** A diff of `o` and `n`, some of whose hunks may have been split. */
  ghost predicate Layout(plain: seq<PatchLine>, hs: seq<Hunk>, rev: bool, o: seq<Text>, n: seq<Text>) {
    && (forall j | 0 <= j < |hs| :: HunkOk(plain, rev, o, n, hs[j]))
    && (forall j | 0 <= j < |hs| - 1 :: Neighbours(plain, rev, o, n, hs[j], hs[j + 1]))
    && if hs == [] then o == n
      else
        var first, last := hs[0], hs[|hs| - 1];
        && Pre(first, rev) == Post(first, rev) && o[..Pre(first, rev)] == n[..Post(first, rev)]
        && o[PreEnd(last, rev)..] == n[PostEnd(last, rev)..]
  }

  // ---------- splitting keeps the layout ----------

  lemma SidesOfPart(plain: seq<PatchLine>, rev: bool, c: char, s: nat, a: nat, b: nat, e: nat, file: seq<Text>, at: int)
    requires s <= a <= b <= e <= |plain|
    requires InFile(Side(plain[s..e], rev, c), file, at, at + |Side(plain[s..e], rev, c)|)
    ensures var before, part := |Side(plain[s..a], rev, c)|, |Side(plain[a..b], rev, c)|;
      InFile(Side(plain[a..b], rev, c), file, at + before, at + before + part)
  {
    hide Side;
    assert plain[s..e] == plain[s..a] + plain[a..b] + plain[b..e];
    SideOfThree(plain[s..a], plain[a..b], plain[b..e], rev, c);
    var x, y, z := Side(plain[s..a], rev, c), Side(plain[a..b], rev, c), Side(plain[b..e], rev, c);
    SliceOfSlice(file, at, at + |x + y + z|, |x|, |x| + |y|);
    assert (x + y + z)[|x|..|x| + |y|] == y;
  }

  /** The side of a part of a hunk is counted by Old and New. */
  lemma SideCounts(lines: seq<PatchLine>, rev: bool)
    ensures |OldLines(lines, rev)| == if rev then New(lines) else Old(lines)
    ensures |NewLines(lines, rev)| == if rev then Old(lines) else New(lines)
  {
    hide Side;
    ReverseSwapsSides(lines);
  }

  lemma {:induction false} GroupHasChange(lines: seq<PatchLine>)
    requires Groups(lines) > 0
    ensures HasChange(lines)
  {
    var last := |lines| - 1;
    if IsChange(lines[last]) {
      assert !IsContext(lines[last].first);
    } else {
      GroupHasChange(lines[..last]);
      var i :| 0 <= i < last && !IsContext(lines[..last][i].first);
      assert !IsContext(lines[i].first);
    }
  }

  lemma PieceIsOk(plain: seq<PatchLine>, rev: bool, o: seq<Text>, n: seq<Text>, h: Hunk, p: Hunk)
    requires HunkOk(plain, rev, o, n, h) && PieceOk(plain, h, p) && p.delta == 0
    requires p.start == h.start || !IsChange(plain[p.start])
    requires p.end == h.end || !IsChange(plain[p.end - 1])
    requires p.header.oldCount > 0 && p.header.newCount > 0
    ensures HunkOk(plain, rev, o, n, p)
    ensures Pre(p, rev) == Pre(h, rev) + |OldLines(plain[h.start..p.start], rev)|
    ensures Post(p, rev) == Post(h, rev) + |NewLines(plain[h.start..p.start], rev)|
  {
    hide Side, Groups, HasChange, HunkLines, Old, New, InFile;
    var lines := plain[h.start..h.end];
    SideCounts(lines, rev);
    SideCounts(plain[h.start..p.start], rev);
    SideCounts(plain[p.start..p.end], rev);
    InFileLength(OldLines(lines, rev), o, Pre(h, rev), PreEnd(h, rev));
    InFileLength(NewLines(lines, rev), n, Post(h, rev), PostEnd(h, rev));
    SidesOfPart(plain, rev, '-', h.start, p.start, p.end, h.end, o, Pre(h, rev));
    SidesOfPart(plain, rev, '+', h.start, p.start, p.end, h.end, n, Post(h, rev));
    InFileLength(OldLines(plain[p.start..p.end], rev), o, Pre(p, rev), PreEnd(p, rev));
    InFileLength(NewLines(plain[p.start..p.end], rev), n, Post(p, rev), PostEnd(p, rev));
    GroupHasChange(plain[p.start..p.end]);
    LinesOfPart(plain, h.start, p.start, p.end, h.end);
    CountSplit(plain, h.start, p.start, h.end);
    CountSplit(plain, p.start, p.end, h.end);
    NoLines(plain, h.start);
    NoLines(plain, h.end);
  }

  lemma InFileLength(lines: seq<Text>, file: seq<Text>, from: int, to: int)
    requires InFile(lines, file, from, to)
    ensures 0 <= from <= to <= |file| && |lines| == to - from
  {
  }

  lemma LinesOfPart(plain: seq<PatchLine>, s: nat, a: nat, b: nat, e: nat)
    requires s <= a <= b <= e <= |plain| && HunkLines(plain[s..e])
    ensures HunkLines(plain[a..b])
  {
    forall i | 0 <= i < b - a ensures IsHunkLine(plain[a..b][i]) {
      assert plain[a..b][i] == plain[s..e][a - s + i];
    }
  }

  /** Cutting a hunk up leaves each piece where it belongs. */
  lemma PieceOfCut(plain: seq<PatchLine>, rev: bool, o: seq<Text>, n: seq<Text>, h: Hunk, ps: seq<Hunk>, j: nat)
    requires HunkOk(plain, rev, o, n, h) && CutUp(plain, h, ps) && |ps| >= 2 && j < |ps|
    ensures HunkOk(plain, rev, o, n, ps[j])
    ensures Pre(ps[j], rev) == Pre(h, rev) + |OldLines(plain[h.start..ps[j].start], rev)|
    ensures Post(ps[j], rev) == Post(h, rev) + |NewLines(plain[h.start..ps[j].start], rev)|
  {
    hide Side, Groups, HasChange, HunkLines, Old, New, InFile, HunkOk, PieceOk;
    var p := ps[j];
    assert PieceOk(plain, h, p);
    PieceBounds(plain, h, p);
    HunkBounds(plain, rev, o, n, h);
    LinesOfPart(plain, h.start, p.start, p.end, h.end);
    if j > 0 {
      assert Shares(plain, ps[j - 1], ps[j]);
      OneContext(plain, p.start, p.start, p.end);
    }
    if j < |ps| - 1 {
      assert Shares(plain, ps[j], ps[j + 1]);
      OneContext(plain, p.start, p.end - 1, p.end);
    }
    PieceIsOk(plain, rev, o, n, h, p);
  }

  lemma PieceBounds(plain: seq<PatchLine>, h: Hunk, p: Hunk)
    requires PieceOk(plain, h, p)
    ensures h.start <= p.start < p.end <= h.end <= |plain|
    ensures p.header.oldCount == Old(plain[p.start..p.end]) && p.header.newCount == New(plain[p.start..p.end])
  {
    hide Side, Groups;
  }

  lemma HunkBounds(plain: seq<PatchLine>, rev: bool, o: seq<Text>, n: seq<Text>, h: Hunk)
    requires HunkOk(plain, rev, o, n, h)
    ensures h.start < h.end <= |plain| && h.delta == 0 && HunkLines(plain[h.start..h.end]) && HasChange(plain[h.start..h.end])
    ensures 0 <= Pre(h, rev) < PreEnd(h, rev) <= |o| && 0 <= Post(h, rev) < PostEnd(h, rev) <= |n|
    ensures PreEnd(h, rev) - Pre(h, rev) == |OldLines(plain[h.start..h.end], rev)|
    ensures PostEnd(h, rev) - Post(h, rev) == |NewLines(plain[h.start..h.end], rev)|
    ensures h.splittableInto == Groups(plain[h.start..h.end])
  {
    hide Side, Groups, HasChange, HunkLines;
  }

  /** A part with a context line has lines on both sides. */
  lemma OneContext(plain: seq<PatchLine>, s: nat, i: nat, e: nat)
    requires s <= i < e <= |plain| && HunkLines(plain[s..e]) && !IsChange(plain[i])
    ensures Old(plain[s..e]) > 0 && New(plain[s..e]) > 0
  {
    hide Side;
    assert plain[s..e][i - s] == plain[i];
    CountSplit(plain, s, i, e);
    CountSplit(plain, i, i + 1, e);
    CountContext(plain, i, i + 1);
  }

  /** Neighbouring pieces fit together. */
  lemma PiecesShare(plain: seq<PatchLine>, rev: bool, o: seq<Text>, n: seq<Text>, h: Hunk, ps: seq<Hunk>, j: nat)
    requires HunkOk(plain, rev, o, n, h) && CutUp(plain, h, ps) && j < |ps| - 1
    ensures Sharing(plain, rev, ps[j], ps[j + 1])
  {
    hide Side, Groups, HasChange, HunkLines, InFile, HunkOk, PieceOk;
    var p, q := ps[j], ps[j + 1];
    assert PieceOk(plain, h, p) && PieceOk(plain, h, q) && Shares(plain, p, q);
    HunkBounds(plain, rev, o, n, h);
    PieceBounds(plain, h, p);
    PieceBounds(plain, h, q);
    PieceOfCut(plain, rev, o, n, h, ps, j);
    PieceOfCut(plain, rev, o, n, h, ps, j + 1);
    HunkBounds(plain, rev, o, n, p);
    HunkBounds(plain, rev, o, n, q);
    LinesOfPart(plain, h.start, q.start, p.end, h.end);
    assert forall i | q.start <= i < p.end :: plain[i] == plain[q.start..p.end][i - q.start];
    CountContext(plain, q.start, p.end);
    SideCounts(plain[h.start..p.start], rev);
    SideCounts(plain[h.start..q.start], rev);
    SideCounts(plain[p.start..p.end], rev);
    CountSplit(plain, h.start, p.start, q.start);
    CountSplit(plain, p.start, q.start, p.end);
    OneGroupEach(plain, h, ps, j);
  }

  lemma OneGroupEach(plain: seq<PatchLine>, h: Hunk, ps: seq<Hunk>, j: nat)
    requires CutUp(plain, h, ps) && j < |ps| - 1
    ensures ps[j].splittableInto == ps[j + 1].splittableInto == 1
  {
    hide Side, Groups;
    assert PieceOk(plain, h, ps[j]) && PieceOk(plain, h, ps[j + 1]);
  }

  /** split_hunk keeps the layout. */
  lemma SplitKeepsLayout(plain: seq<PatchLine>, hs: seq<Hunk>, rev: bool, o: seq<Text>, n: seq<Text>, i: nat, ps: seq<Hunk>)
    requires Layout(plain, hs, rev, o, n) && i < |hs| && hs[i].splittableInto >= 2 && CutUp(plain, hs[i], ps)
    ensures Layout(plain, hs[..i] + ps + hs[i + 1..], rev, o, n)
  {
    hide HunkOk, CutUp, Sharing, Apart;
    var h, all := hs[i], hs[..i] + ps + hs[i + 1..];
    CutEnds(plain, rev, o, n, h, ps);
    forall j | 0 <= j < |all| ensures HunkOk(plain, rev, o, n, all[j]) {
      if i <= j < i + |ps| {
        PieceOfCut(plain, rev, o, n, h, ps, j - i);
      } else {
        assert all[j] == if j < i then hs[j] else hs[j - |ps| + 1];
      }
    }
    forall j | 0 <= j < |all| - 1 ensures Neighbours(plain, rev, o, n, all[j], all[j + 1]) {
      if i <= j < i + |ps| - 1 {
        PiecesShare(plain, rev, o, n, h, ps, j - i);
      } else if j == i - 1 {
        assert Neighbours(plain, rev, o, n, hs[i - 1], hs[i]);
        NextToWhole(plain, rev, o, n, hs[i - 1], h, ps);
      } else if j == i + |ps| - 1 {
        assert Neighbours(plain, rev, o, n, hs[i], hs[i + 1]);
        WholeNextTo(plain, rev, o, n, h, ps, hs[i + 1]);
      } else {
        var k := if j < i then j else j - |ps| + 1;
        assert all[j] == hs[k] && all[j + 1] == hs[k + 1];
      }
    }
  }

  lemma CutEnds(plain: seq<PatchLine>, rev: bool, o: seq<Text>, n: seq<Text>, h: Hunk, ps: seq<Hunk>)
    requires HunkOk(plain, rev, o, n, h) && CutUp(plain, h, ps) && h.splittableInto >= 2
    ensures |ps| >= 2 && ps[0].start == h.start && ps[|ps| - 1].end == h.end
    ensures Pre(ps[0], rev) == Pre(h, rev) && Post(ps[0], rev) == Post(h, rev)
    ensures PreEnd(ps[|ps| - 1], rev) == PreEnd(h, rev) && PostEnd(ps[|ps| - 1], rev) == PostEnd(h, rev)
  {
    hide Side, Groups, HasChange, HunkLines, InFile, HunkOk, PieceOk;
    var last := ps[|ps| - 1];
    PieceOfCut(plain, rev, o, n, h, ps, 0);
    PieceOfCut(plain, rev, o, n, h, ps, |ps| - 1);
    HunkBounds(plain, rev, o, n, h);
    NoLines(plain, h.start);
    SideCounts([], rev);
    HunkBounds(plain, rev, o, n, last);
    assert PieceOk(plain, h, last);
    PieceBounds(plain, h, last);
    CountSplit(plain, h.start, last.start, h.end);
    SideCounts(plain[h.start..h.end], rev);
    SideCounts(plain[h.start..last.start], rev);
    SideCounts(plain[last.start..h.end], rev);
  }

  lemma NextToWhole(plain: seq<PatchLine>, rev: bool, o: seq<Text>, n: seq<Text>, g: Hunk, h: Hunk, ps: seq<Hunk>)
    requires Neighbours(plain, rev, o, n, g, h) && h.splittableInto >= 2 && HunkOk(plain, rev, o, n, h) && CutUp(plain, h, ps)
    ensures |ps| >= 2 && Neighbours(plain, rev, o, n, g, ps[0])
  {
    hide HunkOk, CutUp;
    CutEnds(plain, rev, o, n, h, ps);
  }

  lemma WholeNextTo(plain: seq<PatchLine>, rev: bool, o: seq<Text>, n: seq<Text>, h: Hunk, ps: seq<Hunk>, g: Hunk)
    requires Neighbours(plain, rev, o, n, h, g) && h.splittableInto >= 2 && HunkOk(plain, rev, o, n, h) && CutUp(plain, h, ps)
    ensures |ps| >= 2 && Neighbours(plain, rev, o, n, ps[|ps| - 1], g)
  {
    hide HunkOk, CutUp;
    CutEnds(plain, rev, o, n, h, ps);
  }

  // ---------- merging ----------

  predicate Chosen(h: Hunk, useAll: bool) {
    useAll || h.use == Used
  }

  /** Hunk `k` overlaps with what was merged from hunk `i` on, by the new offsets. */
  predicate Touches(hs: seq<Hunk>, i: nat, k: nat)
    requires i < k < |hs|
  {
    && hs[i].header.newOffset < hs[k].header.newOffset
    && hs[k - 1].header.newOffset + hs[k - 1].header.newCount >= hs[k].header.newOffset
  }

  ghost predicate Run(hs: seq<Hunk>, useAll: bool, i: nat, m: nat) {
    && i <= m < |hs| && (forall k | i <= k <= m :: Chosen(hs[k], useAll))
    && (forall k | i < k <= m :: Touches(hs, i, k))
  }

  /** A merged hunk spans the run from `i` to `m`. */
  ghost predicate Spans(hs: seq<Hunk>, i: nat, m: nat, merged: Hunk)
    requires i <= m < |hs|
  {
    var f, l := hs[i].header, hs[m].header;
    && merged.start == hs[i].start && merged.end == hs[m].end && merged.delta == hs[i].delta
    && merged.header.oldOffset == f.oldOffset && f.oldOffset + merged.header.oldCount == l.oldOffset + l.oldCount
    && merged.header.newOffset == f.newOffset && f.newOffset + merged.header.newCount == l.newOffset + l.newCount
  }

  lemma TouchingShare(plain: seq<PatchLine>, hs: seq<Hunk>, rev: bool, o: seq<Text>, n: seq<Text>, i: nat, k: nat)
    requires Layout(plain, hs, rev, o, n) && i < k < |hs| && Touches(hs, i, k)
    ensures Sharing(plain, rev, hs[k - 1], hs[k])
  {
    hide HunkOk, Sharing;
    assert Neighbours(plain, rev, o, n, hs[k - 1], hs[(k - 1) + 1]);
  }

  /** The ends of pieces that share context are in order in both files. */
  lemma SharedEnds(plain: seq<PatchLine>, rev: bool, o: seq<Text>, n: seq<Text>, g: Hunk, h: Hunk)
    requires HunkOk(plain, rev, o, n, g) && HunkOk(plain, rev, o, n, h) && Sharing(plain, rev, g, h)
    ensures Pre(g, rev) < PreEnd(g, rev) <= PreEnd(h, rev) && Post(g, rev) < PostEnd(g, rev) <= PostEnd(h, rev)
    ensures InFile(OldLines(plain[g.end..h.end], rev), o, PreEnd(g, rev), PreEnd(h, rev))
    ensures InFile(NewLines(plain[g.end..h.end], rev), n, PostEnd(g, rev), PostEnd(h, rev))
    ensures |OldLines(plain[h.start..g.end], rev)| == |NewLines(plain[h.start..g.end], rev)| == g.end - h.start
  {
    hide Side, Groups, HasChange, InFile;
    LinesOfPart(plain, h.start, h.start, g.end, h.end);
    assert forall i | h.start <= i < g.end :: plain[i] == plain[h.start..g.end][i - h.start];
    CountContext(plain, h.start, g.end);
    SideCounts(plain[h.start..g.end], rev);
    HunkBounds(plain, rev, o, n, g);
    HunkBounds(plain, rev, o, n, h);
    CountSplit(plain, h.start, g.end, h.end);
    SideCounts(plain[h.start..h.end], rev);
    SideCounts(plain[g.end..h.end], rev);
    SidesOfPart(plain, rev, '-', h.start, g.end, h.end, h.end, o, Pre(h, rev));
    SidesOfPart(plain, rev, '+', h.start, g.end, h.end, h.end, n, Post(h, rev));
  }

  /** The last hunk of the run that starts at `i`, when it is known to reach `m`. */
  function RunEnd(hs: seq<Hunk>, useAll: bool, i: nat, m: nat): (r: nat)
    requires i <= m < |hs|
    ensures m <= r < |hs|
    decreases |hs| - m
  {
    if m + 1 < |hs| && Chosen(hs[m + 1], useAll) && Touches(hs, i, m + 1) then RunEnd(hs, useAll, i, m + 1) else m
  }

  lemma {:induction false} RunToEnd(hs: seq<Hunk>, useAll: bool, i: nat, m: nat)
    requires Run(hs, useAll, i, m)
    ensures var r := RunEnd(hs, useAll, i, m);
      Run(hs, useAll, i, r) && (r + 1 < |hs| ==> !Chosen(hs[r + 1], useAll) || !Touches(hs, i, r + 1))
    decreases |hs| - m
  {
    hide Touches;
    if m + 1 < |hs| && Chosen(hs[m + 1], useAll) && Touches(hs, i, m + 1) {
      RunToEnd(hs, useAll, i, m + 1);
    }
  }

  /** merge_hunks, when no hunk was edited. */
  method MergeHunks(plain: seq<PatchLine>, hs: seq<Hunk>, i: nat, useAll: bool, ghost rev: bool, ghost o: seq<Text>, ghost n: seq<Text>)
    returns (m: nat, merged: Hunk)
    requires Layout(plain, hs, rev, o, n) && i < |hs| && Chosen(hs[i], useAll)
    ensures Run(hs, useAll, i, m) && Spans(hs, i, m, merged) && m == RunEnd(hs, useAll, i, i)
    ensures m + 1 < |hs| ==> !Chosen(hs[m + 1], useAll) || !Touches(hs, i, m + 1)
  {
    hide Side, HunkOk, Sharing, Layout;
    m := i;
    merged := hs[i];
    while m + 1 < |hs|
      invariant Run(hs, useAll, i, m) && Spans(hs, i, m, merged) && RunEnd(hs, useAll, i, i) == RunEnd(hs, useAll, i, m)
      invariant merged.start <= hs[m].start
    {
      var next := hs[m + 1];
      if !Chosen(next, useAll) || merged.header.newOffset >= next.header.newOffset
         || merged.header.newOffset + merged.header.newCount < next.header.newOffset {
        break;
      }
      TouchingShare(plain, hs, rev, o, n, i, m + 1);
      MergeStep(plain, hs, rev, o, n, m, merged);
      // pieces that were not edited overlap in the diff, too
      assert merged.start < next.start < merged.end;
      merged := merged.(end := next.end, header := merged.header.(
        oldCount := next.header.oldOffset + next.header.oldCount - merged.header.oldOffset,
        newCount := next.header.newOffset + next.header.newCount - merged.header.newOffset));
      m := m + 1;
    }
  }

  lemma MergeStep(plain: seq<PatchLine>, hs: seq<Hunk>, rev: bool, o: seq<Text>, n: seq<Text>, m: nat, merged: Hunk)
    requires Layout(plain, hs, rev, o, n) && m + 1 < |hs| && Sharing(plain, rev, hs[m], hs[m + 1])
    ensures hs[m].start < hs[m + 1].start < hs[m].end
    ensures hs[m].header.oldOffset + hs[m].header.oldCount <= hs[m + 1].header.oldOffset + hs[m + 1].header.oldCount
    ensures hs[m].header.newOffset + hs[m].header.newCount <= hs[m + 1].header.newOffset + hs[m + 1].header.newCount
  {
    hide Side, HunkOk;
    SharedEnds(plain, rev, o, n, hs[m], hs[m + 1]);
  }

  /** Merging all pieces of a hunk restores its range and its header. */
  lemma MergingRestores(plain: seq<PatchLine>, h: Hunk, ps: seq<Hunk>, merged: Hunk)
    requires Counted(plain, h) && CutUp(plain, h, ps) && Spans(ps, 0, |ps| - 1, merged)
    ensures merged.start == h.start && merged.end == h.end && merged.header == h.header && merged.delta == h.delta
  {
    hide Side, Groups;
    var first, last := ps[0], ps[|ps| - 1];
    assert PieceOk(plain, h, first) && PieceOk(plain, h, last);
    NoLines(plain, h.start);
    CountSplit(plain, h.start, last.start, h.end);
  }

  /** The lines from `k` on are removed, up to the first context line or to the end. */
  predicate OnlyRemovals(plain: seq<PatchLine>, k: nat, end: nat)
    requires end <= |plain|
    decreases end - k
  {
    k >= end || !IsChange(plain[k]) || (plain[k].first == '-' && OnlyRemovals(plain, k + 1, end))
  }

  /** No context precedes the first changed lines of a hunk, and none of them is new. */
  predicate StartsByDeleting(plain: seq<PatchLine>, h: Hunk) {
    h.start < h.end <= |plain| && IsChange(plain[h.start]) && OnlyRemovals(plain, h.start, h.end)
  }

  lemma {:induction false} RemovalsHaveNoNew(plain: seq<PatchLine>, k: nat, e: nat, end: nat)
    requires k <= e < end <= |plain| && (forall i | k <= i < e :: IsChange(plain[i])) && !IsChange(plain[e])
    ensures OnlyRemovals(plain, k, end) <==> New(plain[k..e]) == 0
    decreases e - k
  {
    hide Side, Groups, Old, New;
    if k == e {
      NoLines(plain, k);
    } else {
      RemovalsHaveNoNew(plain, k + 1, e, end);
      CountSplit(plain, k, k + 1, e);
      CountMore(plain, k, k);
      NoLines(plain, k);
    }
  }

  lemma {:induction false} ChangeIsGroup(plain: seq<PatchLine>, s: nat, i: nat, e: nat)
    requires s <= i < e <= |plain| && IsChange(plain[i])
    ensures Groups(plain[s..e]) > 0
  {
    hide Groups;
    GroupStep(plain, s, e - 1);
    if i < e - 1 {
      ChangeIsGroup(plain, s, i, e - 1);
    } else if i > s && IsChange(plain[i - 1]) {
      ChangeIsGroup(plain, s, i - 1, e - 1);
    }
  }

  /** One group that starts and ends a part fills it. */
  lemma OneGroupFills(plain: seq<PatchLine>, s: nat, k: nat, e: nat)
    requires s < k < e <= |plain| && IsChange(plain[s]) && IsChange(plain[e - 1]) && Groups(plain[s..e]) <= 1
    ensures IsChange(plain[k])
  {
    hide Groups;
    if !IsChange(plain[k]) {
      GroupSplit(plain, s, k, e);
      ChangeIsGroup(plain, s, s, k);
      ChangeIsGroup(plain, k, e - 1, e);
    }
  }

  /** What the second piece starts after has new lines, unless the hunk starts by deleting. */
  lemma NewBeforeShared(plain: seq<PatchLine>, h: Hunk, ps: seq<Hunk>)
    requires Counted(plain, h) && CutUp(plain, h, ps) && |ps| >= 2
    ensures h.start < ps[1].start < h.end <= |plain|
    ensures New(plain[h.start..ps[1].start]) > 0 <==> !StartsByDeleting(plain, h)
  {
    hide Side, Groups, Old, New;
    var s, e := h.start, ps[1].start;
    assert Shares(plain, ps[0], ps[0 + 1]) && PieceOk(plain, h, ps[0]) && PieceOk(plain, h, ps[1]);
    if IsChange(plain[s]) {
      var end := ps[0].end;
      NoGroup(plain, e, end);
      GroupSplit(plain, s, e, end);
      forall k | s <= k < e ensures IsChange(plain[k]) {
        if s < k < e {
          OneGroupFills(plain, s, k, e);
        }
      }
      RemovalsHaveNoNew(plain, s, e, h.end);
    } else {
      LinesOfPart(plain, s, s, e, h.end);
      OneContext(plain, s, s, e);
    }
  }

  /** The pieces of a hunk touch, so that they are merged again, exactly when the hunk does not start by deleting. */
  lemma PiecesTouch(plain: seq<PatchLine>, h: Hunk, ps: seq<Hunk>)
    requires Counted(plain, h) && CutUp(plain, h, ps) && |ps| >= 2
    ensures (forall k | 0 < k < |ps| :: Touches(ps, 0, k)) <==> !StartsByDeleting(plain, h)
  {
    hide Side, Groups, Old, New, Touches, StartsByDeleting;
    NewBeforeShared(plain, h, ps);
    forall k | 0 < k < |ps| ensures Touches(ps, 0, k) <==> New(plain[h.start..ps[k].start]) > 0 {
      TouchByCount(plain, h, ps, k);
    }
    forall k | 0 < k < |ps| ensures New(plain[h.start..ps[1].start]) <= New(plain[h.start..ps[k].start]) {
      StartsAscend(plain, h, ps, 1, k);
      CountSplit(plain, h.start, ps[1].start, ps[k].start);
    }
  }

  lemma TouchByCount(plain: seq<PatchLine>, h: Hunk, ps: seq<Hunk>, k: nat)
    requires CutUp(plain, h, ps) && 0 < k < |ps|
    ensures Touches(ps, 0, k) <==> New(plain[h.start..ps[k].start]) > 0
  {
    hide Side, Groups, Old, New;
    assert Shares(plain, ps[k - 1], ps[(k - 1) + 1]);
    assert PieceOk(plain, h, ps[0]) && PieceOk(plain, h, ps[k]) && PieceOk(plain, h, ps[k - 1]);
    NoLines(plain, h.start);
    CountSplit(plain, h.start, ps[k - 1].start, ps[k].start);
    CountSplit(plain, ps[k - 1].start, ps[k].start, ps[k - 1].end);
  }

  lemma StartsAscend(plain: seq<PatchLine>, h: Hunk, ps: seq<Hunk>, j: nat, k: nat)
    requires CutUp(plain, h, ps) && j <= k < |ps|
    ensures h.start <= ps[j].start <= ps[k].start <= |plain|
  {
    hide Groups, Old, New;
    assert PieceOk(plain, h, ps[j]) && PieceOk(plain, h, ps[k]);
    if j < k {
      assert Shares(plain, ps[k - 1], ps[(k - 1) + 1]);
      StartsAscend(plain, h, ps, j, k - 1);
    }
  }

  lemma CountOne(plain: seq<PatchLine>, s: nat, k: nat)
    requires s <= k < |plain| && IsHunkLine(plain[k])
    ensures Old(plain[s..k + 1]) == Old(plain[s..k]) + (if plain[k].first == '+' then 0 else 1)
    ensures New(plain[s..k + 1]) == New(plain[s..k]) + (if plain[k].first == '-' then 0 else 1)
    ensures Groups(plain[s..k + 1]) == Groups(plain[s..k]) + (if IsChange(plain[k]) && (k == s || !IsChange(plain[k - 1])) then 1 else 0)
  {
    hide Side, Groups, Old, New;
    CountMore(plain, s, k);
    GroupStep(plain, s, k);
  }

  // ---------- the file with the chosen hunks ----------

  function Slice<T>(s: seq<T>, from: int, to: int): seq<T> {
    if 0 <= from <= to <= |s| then s[from..to] else []
  }

  /** The line of the diff, and that of the file, where what hunk `i` does not share with the one before it starts. */
  function OwnStart(hs: seq<Hunk>, i: nat): nat
    requires i < |hs|
  {
    if i > 0 && hs[i - 1].end > hs[i].start then hs[i - 1].end else hs[i].start
  }

  function OwnPre(hs: seq<Hunk>, rev: bool, i: nat): int
    requires i < |hs|
  {
    if i > 0 && PreEnd(hs[i - 1], rev) > Pre(hs[i], rev) then PreEnd(hs[i - 1], rev) else Pre(hs[i], rev)
  }

  function DoneTo(hs: seq<Hunk>, rev: bool, i: nat): int
    requires i <= |hs|
  {
    if i == 0 then 0 else PreEnd(hs[i - 1], rev)
  }

  function PostDoneTo(hs: seq<Hunk>, rev: bool, i: nat): int
    requires i <= |hs|
  {
    if i == 0 then 0 else PostEnd(hs[i - 1], rev)
  }

  /** The file up to the end of hunk `i - 1`, with the lines of each hunk replaced if it is chosen. */
  ghost function ChosenUpTo(plain: seq<PatchLine>, hs: seq<Hunk>, rev: bool, useAll: bool, o: seq<Text>, i: nat): seq<Text>
    requires i <= |hs|
  {
    if i == 0 then []
    else
      var h := hs[i - 1];
      ChosenUpTo(plain, hs, rev, useAll, o, i - 1)
        + Slice(o, DoneTo(hs, rev, i - 1), OwnPre(hs, rev, i - 1))
        + Side(Slice(plain, OwnStart(hs, i - 1), h.end), rev, if Chosen(h, useAll) then '+' else '-')
  }

  /** The file as it is when the first `i` hunks have been decided on. */
  ghost function FileAt(plain: seq<PatchLine>, hs: seq<Hunk>, rev: bool, useAll: bool, o: seq<Text>, i: nat): seq<Text>
    requires i <= |hs|
  {
    ChosenUpTo(plain, hs, rev, useAll, o, i) + Slice(o, DoneTo(hs, rev, i), |o|)
  }

  /** The file with the chosen hunks applied, and no others. */
  ghost function ChosenFile(plain: seq<PatchLine>, hs: seq<Hunk>, rev: bool, useAll: bool, o: seq<Text>): seq<Text> {
    FileAt(plain, hs, rev, useAll, o, |hs|)
  }

  /** Where the own part of hunk `i` lies in both files. */
  lemma OwnPart(plain: seq<PatchLine>, hs: seq<Hunk>, rev: bool, o: seq<Text>, n: seq<Text>, i: nat)
    requires Layout(plain, hs, rev, o, n) && i < |hs|
    ensures 0 <= DoneTo(hs, rev, i) <= OwnPre(hs, rev, i) <= PreEnd(hs[i], rev) <= |o|
    ensures hs[i].start <= OwnStart(hs, i) < hs[i].end <= |plain|
    ensures InFile(OldLines(plain[OwnStart(hs, i)..hs[i].end], rev), o, OwnPre(hs, rev, i), PreEnd(hs[i], rev))
    ensures 0 <= PostDoneTo(hs, rev, i) <= PostEnd(hs[i], rev) <= |n|
    ensures var k := OwnPre(hs, rev, i) - DoneTo(hs, rev, i);
      PostDoneTo(hs, rev, i) + k <= |n| && o[DoneTo(hs, rev, i)..OwnPre(hs, rev, i)] == n[PostDoneTo(hs, rev, i)..PostDoneTo(hs, rev, i) + k]
      && InFile(NewLines(plain[OwnStart(hs, i)..hs[i].end], rev), n, PostDoneTo(hs, rev, i) + k, PostEnd(hs[i], rev))
    ensures Post(hs[i], rev) - PostDoneTo(hs, rev, i) == Pre(hs[i], rev) - DoneTo(hs, rev, i)
    ensures OwnPre(hs, rev, i) - Pre(hs[i], rev) == OwnStart(hs, i) - hs[i].start
    ensures i > 0 && Sharing(plain, rev, hs[i - 1], hs[i]) ==> OwnPre(hs, rev, i) == DoneTo(hs, rev, i) && OwnStart(hs, i) == hs[i - 1].end
    ensures (i == 0 || Apart(rev, o, n, hs[i - 1], hs[i])) ==> OwnPre(hs, rev, i) == Pre(hs[i], rev) && OwnStart(hs, i) == hs[i].start
  {
    hide Side, HunkOk, HunkLines, InFile;
    var h := hs[i];
    HunkBounds(plain, rev, o, n, h);
    HunkInFiles(plain, rev, o, n, h);
    if i > 0 {
      var g := hs[i - 1];
      assert Neighbours(plain, rev, o, n, g, hs[(i - 1) + 1]);
      HunkBounds(plain, rev, o, n, g);
      if Sharing(plain, rev, g, h) {
        SharedEnds(plain, rev, o, n, g, h);
      }
    }
  }

  lemma HunkInFiles(plain: seq<PatchLine>, rev: bool, o: seq<Text>, n: seq<Text>, h: Hunk)
    requires HunkOk(plain, rev, o, n, h)
    ensures InFile(OldLines(plain[h.start..h.end], rev), o, Pre(h, rev), PreEnd(h, rev))
    ensures InFile(NewLines(plain[h.start..h.end], rev), n, Post(h, rev), PostEnd(h, rev))
  {
    hide Side, InFile;
  }

  /** What one more hunk adds to the file. */
  lemma ChosenStep(plain: seq<PatchLine>, hs: seq<Hunk>, rev: bool, useAll: bool, o: seq<Text>, n: seq<Text>, i: nat)
    requires Layout(plain, hs, rev, o, n) && i < |hs|
    ensures 0 <= DoneTo(hs, rev, i) <= OwnPre(hs, rev, i) <= |o| && OwnStart(hs, i) <= hs[i].end <= |plain|
    ensures var own := plain[OwnStart(hs, i)..hs[i].end];
      ChosenUpTo(plain, hs, rev, useAll, o, i + 1) ==
        ChosenUpTo(plain, hs, rev, useAll, o, i) + o[DoneTo(hs, rev, i)..OwnPre(hs, rev, i)]
          + if Chosen(hs[i], useAll) then NewLines(own, rev) else OldLines(own, rev)
  {
    hide Side, Layout, InFile, DoneTo, OwnPre, OwnStart;
    OwnPart(plain, hs, rev, o, n, i);
  }

  /** Choosing no hunk leaves the file alone. */
  lemma {:induction false} ChoosingNone(plain: seq<PatchLine>, hs: seq<Hunk>, rev: bool, o: seq<Text>, n: seq<Text>, i: nat)
    requires Layout(plain, hs, rev, o, n) && i <= |hs| && forall j | 0 <= j < i :: !Chosen(hs[j], false)
    ensures FileAt(plain, hs, rev, false, o, i) == o
  {
    hide *;
    if i == 0 {
      NothingDone(plain, hs, rev, false, o);
    } else {
      ChoosingNone(plain, hs, rev, o, n, i - 1);
      SkipKeepsFile(plain, hs, rev, false, o, n, i - 1);
    }
  }

  /** A hunk that is not chosen leaves the file as it is. */
  lemma SkipKeepsFile(plain: seq<PatchLine>, hs: seq<Hunk>, rev: bool, useAll: bool, o: seq<Text>, n: seq<Text>, i: nat)
    requires Layout(plain, hs, rev, o, n) && i < |hs| && !Chosen(hs[i], useAll)
    ensures FileAt(plain, hs, rev, useAll, o, i + 1) == FileAt(plain, hs, rev, useAll, o, i)
  {
    hide *;
    OwnPart(plain, hs, rev, o, n, i);
    ChosenStep(plain, hs, rev, useAll, o, n, i);
    NextDone(hs, rev, i);
    FileIs(plain, hs, rev, useAll, o, i);
    FileIs(plain, hs, rev, useAll, o, i + 1);
    var a, b, c := DoneTo(hs, rev, i), OwnPre(hs, rev, i), PreEnd(hs[i], rev);
    var own := OldLines(plain[OwnStart(hs, i)..hs[i].end], rev);
    InFileIs(own, o, b, c);
    Rejoin(o, a, b, c, ChosenUpTo(plain, hs, rev, useAll, o, i), own);
  }

  lemma FileIs(plain: seq<PatchLine>, hs: seq<Hunk>, rev: bool, useAll: bool, o: seq<Text>, i: nat)
    requires i <= |hs| && 0 <= DoneTo(hs, rev, i) <= |o|
    ensures FileAt(plain, hs, rev, useAll, o, i) == ChosenUpTo(plain, hs, rev, useAll, o, i) + o[DoneTo(hs, rev, i)..]
  {
    hide ChosenUpTo, DoneTo;
  }

  lemma InFileIs(lines: seq<Text>, file: seq<Text>, from: int, to: int)
    requires InFile(lines, file, from, to)
    ensures 0 <= from <= to <= |file| && file[from..to] == lines
  {
  }

  lemma Rejoin(o: seq<Text>, a: nat, b: nat, c: nat, u: seq<Text>, own: seq<Text>)
    requires a <= b <= c <= |o| && own == o[b..c]
    ensures u + o[a..b] + own + o[c..] == u + o[a..]
  {
    assert o[a..] == o[a..b] + own + o[c..];
  }

  lemma Extend(n: seq<Text>, a: nat, b: nat, c: nat, u: seq<Text>, v: seq<Text>, w: seq<Text>)
    requires a <= b <= c <= |n| && u == n[..a] && v == n[a..b] && w == n[b..c]
    ensures u + v + w == n[..c]
  {
  }

  lemma NextDone(hs: seq<Hunk>, rev: bool, i: nat)
    requires i < |hs|
    ensures DoneTo(hs, rev, i + 1) == PreEnd(hs[i], rev) && PostDoneTo(hs, rev, i + 1) == PostEnd(hs[i], rev)
  {
  }

  lemma UsingAll(h: Hunk)
    ensures Chosen(h, true)
  {
  }

  /** Choosing them all makes the other file. */
  lemma {:induction false} ChoosingAll(plain: seq<PatchLine>, hs: seq<Hunk>, rev: bool, o: seq<Text>, n: seq<Text>, i: nat)
    requires Layout(plain, hs, rev, o, n) && i <= |hs|
    ensures 0 <= PostDoneTo(hs, rev, i) <= |n| && ChosenUpTo(plain, hs, rev, true, o, i) == n[..PostDoneTo(hs, rev, i)]
  {
    hide *;
    if i == 0 {
      NothingDone(plain, hs, rev, true, o);
    } else {
      ChoosingAll(plain, hs, rev, o, n, i - 1);
      ChoosingOneMore(plain, hs, rev, o, n, i - 1);
    }
  }

  lemma NothingDone(plain: seq<PatchLine>, hs: seq<Hunk>, rev: bool, useAll: bool, o: seq<Text>)
    ensures PostDoneTo(hs, rev, 0) == 0 && ChosenUpTo(plain, hs, rev, useAll, o, 0) == [] && FileAt(plain, hs, rev, useAll, o, 0) == o
  {
  }

  lemma ChoosingOneMore(plain: seq<PatchLine>, hs: seq<Hunk>, rev: bool, o: seq<Text>, n: seq<Text>, i: nat)
    requires Layout(plain, hs, rev, o, n) && i < |hs| && 0 <= PostDoneTo(hs, rev, i) <= |n|
    requires ChosenUpTo(plain, hs, rev, true, o, i) == n[..PostDoneTo(hs, rev, i)]
    ensures 0 <= PostDoneTo(hs, rev, i + 1) <= |n| && ChosenUpTo(plain, hs, rev, true, o, i + 1) == n[..PostDoneTo(hs, rev, i + 1)]
  {
    hide *;
    OwnPart(plain, hs, rev, o, n, i);
    ChosenStep(plain, hs, rev, true, o, n, i);
    NextDone(hs, rev, i);
    UsingAll(hs[i]);
    var k: nat := OwnPre(hs, rev, i) - DoneTo(hs, rev, i);
    var a: nat, c: nat := PostDoneTo(hs, rev, i), PostEnd(hs[i], rev);
    var own := NewLines(plain[OwnStart(hs, i)..hs[i].end], rev);
    InFileIs(own, n, a + k, c);
    Extend(n, a, a + k, c, ChosenUpTo(plain, hs, rev, true, o, i), o[DoneTo(hs, rev, i)..OwnPre(hs, rev, i)], own);
  }

  lemma ChoosingAllMakesNew(plain: seq<PatchLine>, hs: seq<Hunk>, rev: bool, o: seq<Text>, n: seq<Text>)
    requires Layout(plain, hs, rev, o, n)
    ensures ChosenFile(plain, hs, rev, true, o) == n
  {
    hide Side, HunkOk, ChosenUpTo;
    ChoosingAll(plain, hs, rev, o, n, |hs|);
    ChosenNothing(plain, hs, rev, o);
    if hs != [] {
      var last := hs[|hs| - 1];
      HunkBounds(plain, rev, o, n, last);
      assert n == n[..PostEnd(last, rev)] + n[PostEnd(last, rev)..];
    }
  }

  lemma ChosenNothing(plain: seq<PatchLine>, hs: seq<Hunk>, rev: bool, o: seq<Text>)
    ensures hs == [] ==> ChosenFile(plain, hs, rev, true, o) == o
  {
  }

  // ---------- one more hunk for a patch ----------

  /** Where the hunks end in either file. */
  ghost function PreLimit(fs: seq<Fragment>, rev: bool): int {
    if fs == [] then 0 else PreReach(fs[|fs| - 1], rev)
  }

  ghost function PostLimit(fs: seq<Fragment>, rev: bool): int {
    if fs == [] then 0 else PostReach(fs[|fs| - 1], rev)
  }

  lemma {:induction false} LimitsOf(fs: seq<Fragment>, i: nat, rev: bool, o: seq<Text>, c: seq<Text>, a: int, b: int)
    requires i <= |fs| && Turns(fs, i, rev, o, c, a, b) && (i == |fs| ==> a == PreLimit(fs, rev) && b == PostLimit(fs, rev))
    ensures 0 <= a <= PreLimit(fs, rev) <= |o| && 0 <= b <= PostLimit(fs, rev) <= |c|
    ensures o[PreLimit(fs, rev)..] == c[PostLimit(fs, rev)..]
    decreases |fs| - i
  {
    hide HunkStep, PreReach, PostReach;
    if i < |fs| {
      StepBounds(fs[i], rev, o, c, a, b);
      LimitsOf(fs, i + 1, rev, o, c, PreReach(fs[i], rev), PostReach(fs[i], rev));
    }
  }

  lemma StepBounds(f: Fragment, rev: bool, o: seq<Text>, c: seq<Text>, a: int, b: int)
    requires HunkStep(f, rev, o, c, a, b)
    ensures 0 <= a <= PreReach(f, rev) <= |o| && 0 <= b <= PostReach(f, rev) <= |c|
  {
    hide Side, Shaped;
  }

  /** A hunk is applied in the same way when only lines beyond it change. */
  lemma StepBefore(f: Fragment, rev: bool, o: seq<Text>, c: seq<Text>, a: int, b: int, c2: seq<Text>, k: nat)
    requires HunkStep(f, rev, o, c, a, b) && PreReach(f, rev) < |o|
    requires PostReach(f, rev) <= k <= |c| && k <= |c2| && c2[..k] == c[..k]
    ensures HunkStep(f, rev, o, c2, a, b)
  {
    hide Side, Shaped;
    var was, now := OldLines(f.patch, rev), NewLines(f.patch, rev);
    var a1, b1 := Start(f.oldpos, |was|), Start(f.newpos, |now|);
    SliceOfPrefix(c, c2, k, b, b1);
    SliceOfPrefix(c, c2, k, b1, b1 + |now|);
  }

  lemma SliceOfPrefix(c: seq<Text>, c2: seq<Text>, k: nat, x: nat, y: nat)
    requires x <= y <= k <= |c| && k <= |c2| && c2[..k] == c[..k]
    ensures c[x..y] == c2[x..y]
  {
    assert c[x..y] == c[..k][x..y] && c2[x..y] == c2[..k][x..y];
  }

  /** A patch with one more hunk, which changes lines no other hunk has reached. */
  lemma {:induction false} TurnsAppend(fs: seq<Fragment>, i: nat, rev: bool, o: seq<Text>, c: seq<Text>, a: int, b: int,
                                       f: Fragment, c2: seq<Text>, k: nat)
    requires i <= |fs| && Turns(fs, i, rev, o, c, a, b) && (i == |fs| ==> a == PreLimit(fs, rev) && b == PostLimit(fs, rev))
    requires PostLimit(fs, rev) <= k <= |c| && k <= |c2| && c2[..k] == c[..k] && PreLimit(fs, rev) < |o|
    requires HunkStep(f, rev, o, c2, PreLimit(fs, rev), PostLimit(fs, rev)) && Turns([f], 1, rev, o, c2, PreReach(f, rev), PostReach(f, rev))
    ensures Turns(fs + [f], i, rev, o, c2, a, b)
    decreases |fs| - i
  {
    hide HunkStep, PreReach, PostReach;
    var all := fs + [f];
    LimitsOf(fs, i, rev, o, c, a, b);
    if i == |fs| {
      assert all[i] == f;
    } else {
      assert all[i] == fs[i];
      LimitsOf(fs, i + 1, rev, o, c, PreReach(fs[i], rev), PostReach(fs[i], rev));
      StepBefore(fs[i], rev, o, c, a, b, c2, k);
      TurnsAppend(fs, i + 1, rev, o, c, PreReach(fs[i], rev), PostReach(fs[i], rev), f, c2, k);
    }
  }

  // ---------- reassembling the patch ----------

  /** A hunk as render_hunk writes it. */
  datatype Emitted = Emitted(oldOffset: int, oldCount: nat, newOffset: int, newCount: nat, lines: seq<PatchLine>)

  function Natural(x: int): nat {
    if x < 0 then 0 else x
  }

  /** The hunk as apply.c reads it, with its positions swapped if the patch is applied in reverse. */
  ghost function FragmentOf(e: Emitted, rev: bool): Fragment {
    var f := Fragment(Leading(e.lines), Trailing(e.lines), Natural(e.oldOffset), e.oldCount, Natural(e.newOffset), e.newCount, e.lines);
    if rev then Swapped(f) else f
  }

  ghost function FragmentsOf(out: seq<Emitted>, rev: bool): (fs: seq<Fragment>)
    ensures |fs| == |out| && forall i | 0 <= i < |out| :: fs[i] == FragmentOf(out[i], rev)
  {
    seq(|out|, i requires 0 <= i < |out| => FragmentOf(out[i], rev))
  }

  /** Chosen pieces that share context are recognised as touching. */
  ghost predicate Visible(plain: seq<PatchLine>, hs: seq<Hunk>, rev: bool, useAll: bool) {
    forall j | 0 < j < |hs| :: VisibleAt(plain, hs, rev, useAll, j)
  }

  ghost predicate VisibleAt(plain: seq<PatchLine>, hs: seq<Hunk>, rev: bool, useAll: bool, j: nat)
    requires 0 < j < |hs|
  {
    Sharing(plain, rev, hs[j - 1], hs[j]) && Chosen(hs[j - 1], useAll) && Chosen(hs[j], useAll) ==>
      hs[j - 1].header.newOffset < hs[j].header.newOffset
  }

  /** The lines of a run of chosen pieces. */
  lemma {:induction false} RunLines(plain: seq<PatchLine>, hs: seq<Hunk>, rev: bool, useAll: bool, o: seq<Text>, n: seq<Text>, i: nat, m: nat)
    requires Layout(plain, hs, rev, o, n) && Run(hs, useAll, i, m)
    ensures hs[i].start <= OwnStart(hs, i) < hs[m].end <= |plain| && hs[i].start < hs[i].end <= hs[m].end
    ensures HunkLines(plain[hs[i].start..hs[m].end]) && HasChange(plain[hs[i].start..hs[m].end])
    ensures InFile(OldLines(plain[hs[i].start..hs[m].end], rev), o, Pre(hs[i], rev), PreEnd(hs[m], rev))
    ensures InFile(NewLines(plain[hs[i].start..hs[m].end], rev), n, Post(hs[i], rev), PostEnd(hs[m], rev))
    ensures 0 <= DoneTo(hs, rev, i) <= OwnPre(hs, rev, i) <= |o|
    ensures ChosenUpTo(plain, hs, rev, useAll, o, m + 1) ==
      ChosenUpTo(plain, hs, rev, useAll, o, i) + o[DoneTo(hs, rev, i)..OwnPre(hs, rev, i)] + NewLines(plain[OwnStart(hs, i)..hs[m].end], rev)
    decreases m
  {
    hide Side, Layout, HunkOk, HunkLines, HasChange, InFile, DoneTo, OwnPre, OwnStart, ChosenUpTo, Touches, Sharing;
    OwnPart(plain, hs, rev, o, n, i);
    HunkOf(plain, hs, rev, o, n, m);
    if i == m {
      ChosenStep(plain, hs, rev, useAll, o, n, i);
    } else {
      RunLines(plain, hs, rev, useAll, o, n, i, m - 1);
      TouchingShare(plain, hs, rev, o, n, i, m);
      HunkOf(plain, hs, rev, o, n, m - 1);
      SharedEnds(plain, rev, o, n, hs[m - 1], hs[m]);
      OwnPart(plain, hs, rev, o, n, m);
      ChosenStep(plain, hs, rev, useAll, o, n, m);
      var s, e, e2 := hs[i].start, hs[m - 1].end, hs[m].end;
      LaterHunk(plain, rev, hs[m - 1], hs[m]);
      SidesJoin(plain, rev, s, e, e2);
      SidesJoin(plain, rev, OwnStart(hs, i), e, e2);
      InFileJoin(OldLines(plain[s..e], rev), OldLines(plain[e..e2], rev), o, Pre(hs[i], rev), PreEnd(hs[m - 1], rev), PreEnd(hs[m], rev));
      InFileJoin(NewLines(plain[s..e], rev), NewLines(plain[e..e2], rev), n, Post(hs[i], rev), PostEnd(hs[m - 1], rev), PostEnd(hs[m], rev));
      PartsJoin(plain, s, hs[m].start, e, e2);
      NoGap(o, hs, rev, m);
    }
  }

  lemma HunkOf(plain: seq<PatchLine>, hs: seq<Hunk>, rev: bool, o: seq<Text>, n: seq<Text>, i: nat)
    requires Layout(plain, hs, rev, o, n) && i < |hs|
    ensures HunkOk(plain, rev, o, n, hs[i]) && hs[i].start < hs[i].end <= |plain|
    ensures HunkLines(plain[hs[i].start..hs[i].end]) && HasChange(plain[hs[i].start..hs[i].end])
    ensures InFile(OldLines(plain[hs[i].start..hs[i].end], rev), o, Pre(hs[i], rev), PreEnd(hs[i], rev))
    ensures InFile(NewLines(plain[hs[i].start..hs[i].end], rev), n, Post(hs[i], rev), PostEnd(hs[i], rev))
  {
    hide Side, HunkOk;
    HunkBounds(plain, rev, o, n, hs[i]);
    HunkInFiles(plain, rev, o, n, hs[i]);
  }

  lemma LaterHunk(plain: seq<PatchLine>, rev: bool, g: Hunk, h: Hunk)
    requires Sharing(plain, rev, g, h)
    ensures g.start < h.start < g.end < h.end <= |plain|
  {
  }

  lemma SidesJoin(plain: seq<PatchLine>, rev: bool, s: nat, m: nat, e: nat)
    requires s <= m <= e <= |plain|
    ensures OldLines(plain[s..e], rev) == OldLines(plain[s..m], rev) + OldLines(plain[m..e], rev)
    ensures NewLines(plain[s..e], rev) == NewLines(plain[s..m], rev) + NewLines(plain[m..e], rev)
  {
    hide Side;
    assert plain[s..e] == plain[s..m] + plain[m..e];
    SideAppend(plain[s..m], plain[m..e], rev, '-');
    SideAppend(plain[s..m], plain[m..e], rev, '+');
  }

  lemma InFileJoin(x: seq<Text>, y: seq<Text>, file: seq<Text>, a: int, b: int, c: int)
    requires InFile(x, file, a, b) && InFile(y, file, b, c)
    ensures InFile(x + y, file, a, c)
  {
  }

  lemma PartsJoin(plain: seq<PatchLine>, s: nat, t: nat, m: nat, e: nat)
    requires s <= m <= e <= |plain| && t <= m && HunkLines(plain[s..m]) && HunkLines(plain[t..e]) && HasChange(plain[s..m])
    ensures HunkLines(plain[s..e]) && HasChange(plain[s..e])
  {
    forall i | 0 <= i < e - s ensures IsHunkLine(plain[s..e][i]) {
      if i < m - s {
        assert plain[s..m][i] == plain[s + i];
      } else {
        assert plain[t..e][s + i - t] == plain[s + i];
      }
    }
    var i :| 0 <= i < m - s && !IsContext(plain[s..m][i].first);
    assert plain[s..e][i] == plain[s..m][i];
  }

  lemma NoGap(o: seq<Text>, hs: seq<Hunk>, rev: bool, m: nat)
    requires m < |hs| && 0 <= DoneTo(hs, rev, m) == OwnPre(hs, rev, m) <= |o|
    ensures o[DoneTo(hs, rev, m)..OwnPre(hs, rev, m)] == []
  {
  }

  /**
   Where reassemble_patch stands before hunk `i`: the hunks written so far turn the file into what the
   decisions so far make of it, and `d` is how much longer the skipped hunks leave it than the diff says.
   */
  ghost predicate InStep(plain: seq<PatchLine>, hs: seq<Hunk>, rev: bool, useAll: bool, o: seq<Text>, n: seq<Text>,
                         i: nat, fs: seq<Fragment>, d: int) {
    && i <= |hs| && Turns(fs, 0, rev, o, FileAt(plain, hs, rev, useAll, o, i), 0, 0)
    && PreLimit(fs, rev) <= DoneTo(hs, rev, i)
    && PostLimit(fs, rev) - PreLimit(fs, rev) == PostDoneTo(hs, rev, i) - DoneTo(hs, rev, i) + d
    && (i == 0 ==> fs == [] && d == 0)
    && (0 < i < |hs| && Chosen(hs[i], useAll) && PreLimit(fs, rev) > DoneTo(hs, rev, i - 1) ==> Apart(rev, o, n, hs[i - 1], hs[i]))
  }

  /** The new text is put between what is done and what is still to come. */
  lemma FileSpliced(u: seq<Text>, o: seq<Text>, a: int, b: int, done: int, own: int, a1: int, end: int,
                    shared: seq<Text>, now: seq<Text>, c: seq<Text>, c2: seq<Text>)
    requires 0 <= a <= a1 <= own <= end <= |o| && 0 <= a <= done <= own && 0 <= b <= |c|
    requires c == u + o[done..] && o[a..] == c[b..] && c2 == u + o[done..own] + now + o[end..]
    requires (a1 == own && shared == []) || (own == done && a1 <= done && shared == o[a1..done])
    ensures var b1 := b + a1 - a;
      && b <= b1 <= |c| && b1 + |shared + now| <= |c2| && c2[..b1] == c[..b1]
      && c2[b1..b1 + |shared + now|] == shared + now && c2[b1 + |shared + now|..] == o[end..]
      && c2[b..b1] == o[a..a1]
  {
    var b1 := b + a1 - a;
    assert |o[a..]| == |c[b..]|;
    var head := c[..b1];
    if a1 == own && shared == [] {
      assert head == u + o[done..own];
      assert shared + now == now;
    } else {
      assert u == c[..|u|];
      SameSlice(o, a, a1, done, c, b);
      assert u == head + shared;
    }
    assert c2 == head + (shared + now) + o[end..];
    ThreeParts(head, shared + now, o[end..], c2);
    SameSlice(o, a, a, a1, c, b);
    assert c2[b..b1] == c2[..b1][b..] && c[b..b1] == c[..b1][b..];
  }

  /** Files that agree from `a` and `b` on agree on slices. */
  lemma SameSlice(o: seq<Text>, a: nat, x: nat, y: nat, c: seq<Text>, b: nat)
    requires a <= x <= y <= |o| && b <= |c| && o[a..] == c[b..]
    ensures b + y - a <= |c| && o[x..y] == c[b + x - a..b + y - a]
  {
    assert |o[a..]| == |c[b..]|;
    SliceOfSlice(o, a, |o|, x - a, y - a);
    SliceOfSlice(c, b, |c|, x - a, y - a);
  }

  lemma ThreeParts(x: seq<Text>, y: seq<Text>, z: seq<Text>, all: seq<Text>)
    requires all == x + y + z
    ensures |x + y| <= |all| && all[..|x|] == x && all[|x|..|x + y|] == y && all[|x + y|..] == z
  {
  }

  /** What hunk `i` shares with the one before it is the same on both sides, and in the file. */
  lemma SharedPart(plain: seq<PatchLine>, hs: seq<Hunk>, rev: bool, o: seq<Text>, n: seq<Text>, i: nat)
    requires Layout(plain, hs, rev, o, n) && i < |hs| && hs[i].start <= OwnStart(hs, i) <= |plain|
    ensures var shared := NewLines(plain[hs[i].start..OwnStart(hs, i)], rev);
      || (Pre(hs[i], rev) == OwnPre(hs, rev, i) && shared == [])
      || (OwnPre(hs, rev, i) == DoneTo(hs, rev, i) && InFile(shared, o, Pre(hs[i], rev), DoneTo(hs, rev, i)))
  {
    hide Side, Layout, HunkOk, HunkLines, InFile;
    OwnPart(plain, hs, rev, o, n, i);
    HunkOf(plain, hs, rev, o, n, i);
    if i == 0 || Apart(rev, o, n, hs[i - 1], hs[i]) {
      NoLines(plain, hs[i].start);
      SideCounts([], rev);
    } else {
      AreNeighbours(plain, hs, rev, o, n, i);
      var s, e := hs[i].start, hs[i - 1].end;
      LinesOfPart(plain, s, s, e, hs[i].end);
      forall k | 0 <= k < |plain[s..e]| ensures !IsChange(plain[s..e][k]) {
        assert plain[s..e][k] == plain[s + k];
      }
      CountContext(plain, s, e);
      SideCounts(plain[s..e], rev);
      ContextBothSides(plain[s..e], rev);
      NoLines(plain, s);
      SideCounts([], rev);
      HunkBounds(plain, rev, o, n, hs[i]);
      SidesOfPart(plain, rev, '-', s, s, e, hs[i].end, o, Pre(hs[i], rev));
    }
  }

  lemma ContextBothSides(x: seq<PatchLine>, rev: bool)
    requires HunkLines(x) && forall i | 0 <= i < |x| :: !IsChange(x[i])
    ensures OldLines(x, rev) == NewLines(x, rev)
  {
    hide Side;
    ContextSide(x, rev, '-', '+');
  }

  lemma AreNeighbours(plain: seq<PatchLine>, hs: seq<Hunk>, rev: bool, o: seq<Text>, n: seq<Text>, i: nat)
    requires Layout(plain, hs, rev, o, n) && 0 < i < |hs|
    ensures Neighbours(plain, rev, o, n, hs[i - 1], hs[i])
  {
    hide HunkOk, Apart, Sharing;
    assert Neighbours(plain, rev, o, n, hs[i - 1], hs[(i - 1) + 1]);
  }

  /** A hunk does not start before what is done, even if the hunk before it is skipped. */
  lemma StartsAfter(plain: seq<PatchLine>, hs: seq<Hunk>, rev: bool, o: seq<Text>, n: seq<Text>, i: nat)
    requires Layout(plain, hs, rev, o, n) && 0 < i < |hs|
    ensures 0 <= DoneTo(hs, rev, i - 1) <= Pre(hs[i], rev)
    ensures Apart(rev, o, n, hs[i - 1], hs[i]) ==> DoneTo(hs, rev, i) <= Pre(hs[i], rev)
    ensures IsChange(plain[hs[i].start]) ==> Pre(hs[i], rev) > 0
  {
    hide Side, Layout, HunkOk, HunkLines, InFile, OwnPre, DoneTo, OwnStart;
    var g, h := hs[i - 1], hs[i];
    OwnPart(plain, hs, rev, o, n, i - 1);
    HunkOf(plain, hs, rev, o, n, i - 1);
    HunkBounds(plain, rev, o, n, g);
    HunkOf(plain, hs, rev, o, n, i);
    AreNeighbours(plain, hs, rev, o, n, i);
    NextDone(hs, rev, i - 1);
    if !Apart(rev, o, n, g, h) {
      SharingStarts(plain, rev, o, n, g, h);
      if i > 1 && !Apart(rev, o, n, hs[i - 2], g) {
        AreNeighbours(plain, hs, rev, o, n, i - 1);
        BeyondShared(plain, rev, hs[i - 2], g, h);
      }
    }
  }

  /** What a piece shares with the next one lies beyond what it shares with the one before. */
  lemma BeyondShared(plain: seq<PatchLine>, rev: bool, f: Hunk, g: Hunk, h: Hunk)
    requires Shares(plain, f, g) && Shares(plain, g, h) && HunkLines(plain[g.start..g.end])
    ensures |OldLines(plain[g.start..h.start], rev)| >= f.end - g.start
  {
    hide Side;
    var s, t := g.start, f.end;
    assert h.start - 1 >= t;
    LinesOfPart(plain, s, s, t, g.end);
    assert forall k | s <= k < t :: plain[k] == plain[s..t][k - s];
    CountContext(plain, s, t);
    CountSplit(plain, s, t, h.start);
    SideCounts(plain[s..h.start], rev);
  }

  /** A piece starts as far on as the lines between say. */
  lemma SharingStarts(plain: seq<PatchLine>, rev: bool, o: seq<Text>, n: seq<Text>, g: Hunk, h: Hunk)
    requires HunkOk(plain, rev, o, n, g) && HunkOk(plain, rev, o, n, h) && Sharing(plain, rev, g, h)
    ensures Pre(h, rev) == Pre(g, rev) + |OldLines(plain[g.start..h.start], rev)|
  {
    hide Side, HunkOk, HunkLines;
    HunkBounds(plain, rev, o, n, g);
    HunkBounds(plain, rev, o, n, h);
    SharedEnds(plain, rev, o, n, g, h);
    CountSplit(plain, g.start, h.start, g.end);
    SideCounts(plain[g.start..g.end], rev);
    SideCounts(plain[g.start..h.start], rev);
    SideCounts(plain[h.start..g.end], rev);
  }

  /** The hunk written for a run of chosen pieces. */
  ghost predicate WrittenFor(plain: seq<PatchLine>, hs: seq<Hunk>, rev: bool, i: nat, m: nat, d: int, f: Fragment)
    requires i <= m < |hs|
  {
    && hs[i].start <= hs[m].end <= |plain| && f.patch == plain[hs[i].start..hs[m].end]
    && f.leading == Leading(f.patch) && f.trailing == Trailing(f.patch)
    && f.oldpos == Natural(Pre(hs[i], rev) + 1) && f.newpos == Natural(Post(hs[i], rev) + d + 1)
  }

  lemma RunBounds(hs: seq<Hunk>, useAll: bool, i: nat, m: nat)
    requires Run(hs, useAll, i, m)
    ensures i <= m < |hs| && Chosen(hs[i], useAll)
  {
  }

  lemma OwnBeforeEnd(plain: seq<PatchLine>, hs: seq<Hunk>, rev: bool, useAll: bool, o: seq<Text>, n: seq<Text>, i: nat, m: nat)
    requires Layout(plain, hs, rev, o, n) && Run(hs, useAll, i, m)
    ensures OwnPre(hs, rev, i) <= PreEnd(hs[i], rev) <= PreEnd(hs[m], rev) <= |o|
    ensures PostEnd(hs[i], rev) <= PostEnd(hs[m], rev)
    decreases m
  {
    hide Side, Layout, HunkOk, InFile, OwnPre, Touches;
    OwnPart(plain, hs, rev, o, n, i);
    if i < m {
      OwnBeforeEnd(plain, hs, rev, useAll, o, n, i, m - 1);
      TouchingShare(plain, hs, rev, o, n, i, m);
      HunkOf(plain, hs, rev, o, n, m - 1);
      HunkOf(plain, hs, rev, o, n, m);
      SharedEnds(plain, rev, o, n, hs[m - 1], hs[m]);
      HunkBounds(plain, rev, o, n, hs[m]);
    }
  }

  /** A hunk written for a run has the shape of a hunk, and lacks context only at the ends of the files. */
  lemma RunShape(plain: seq<PatchLine>, hs: seq<Hunk>, rev: bool, useAll: bool, o: seq<Text>, n: seq<Text>, i: nat, m: nat, f: Fragment)
    requires Layout(plain, hs, rev, o, n) && Run(hs, useAll, i, m) && hs[i].start < hs[m].end <= |plain|
    requires f.patch == plain[hs[i].start..hs[m].end] && f.leading == Leading(f.patch) && f.trailing == Trailing(f.patch)
    ensures Shaped(f)
    ensures f.leading == 0 ==> i == 0 && Pre(hs[i], rev) == Post(hs[i], rev) == 0
    ensures f.trailing == 0 ==> PreEnd(hs[m], rev) == |o|
  {
    hide Side, Layout, HunkOk, HasChange, InFile, ChosenUpTo, DoneTo, OwnPre, OwnStart, Run;
    RunBounds(hs, useAll, i, m);
    RunLines(plain, hs, rev, useAll, o, n, i, m);
    assert f.patch[0] == plain[hs[i].start] && f.patch[|f.patch| - 1] == plain[hs[m].end - 1];
    HunkOf(plain, hs, rev, o, n, i);
    HunkOf(plain, hs, rev, o, n, m);
    AtEnds(plain, rev, o, n, hs[i]);
    AtEnds(plain, rev, o, n, hs[m]);
    if i > 0 {
      StartsAfter(plain, hs, rev, o, n, i);
    }
    assert IsHunkLine(f.patch[0]) && IsHunkLine(f.patch[|f.patch| - 1]);
  }

  lemma AtEnds(plain: seq<PatchLine>, rev: bool, o: seq<Text>, n: seq<Text>, h: Hunk)
    requires HunkOk(plain, rev, o, n, h)
    ensures h.start < h.end <= |plain|
    ensures IsChange(plain[h.start]) ==> Pre(h, rev) == Post(h, rev) == 0
    ensures IsChange(plain[h.end - 1]) ==> PreEnd(h, rev) == |o|
  {
    hide Side, HasChange, InFile;
  }

  /** It takes the place of its lines in the file as it is so far. */
  lemma RunIsStep(plain: seq<PatchLine>, hs: seq<Hunk>, rev: bool, useAll: bool, o: seq<Text>, n: seq<Text>,
                  i: nat, m: nat, fs: seq<Fragment>, d: int, f: Fragment)
    requires Layout(plain, hs, rev, o, n) && InStep(plain, hs, rev, useAll, o, n, i, fs, d) && Run(hs, useAll, i, m)
    requires WrittenFor(plain, hs, rev, i, m, d, f)
    ensures var c, c2 := FileAt(plain, hs, rev, useAll, o, i), FileAt(plain, hs, rev, useAll, o, m + 1);
      var a, b := PreLimit(fs, rev), PostLimit(fs, rev);
      var b1 := Post(hs[i], rev) + d;
      && 0 <= a < |o| && 0 <= b <= b1 <= |c| && b1 <= |c2| && c2[..b1] == c[..b1]
      && HunkStep(f, rev, o, c2, a, b)
      && 0 <= PreReach(f, rev) == PreEnd(hs[m], rev) <= |o| && 0 <= PostReach(f, rev) == PostEnd(hs[m], rev) + d <= |c2|
      && c2[PostReach(f, rev)..] == o[PreEnd(hs[m], rev)..]
  {
    hide *;
    RunBounds(hs, useAll, i, m);
    RunLines(plain, hs, rev, useAll, o, n, i, m);
    var c, c2 := FileAt(plain, hs, rev, useAll, o, i), FileAt(plain, hs, rev, useAll, o, m + 1);
    var a, b := InStepMeans(plain, hs, rev, useAll, o, n, i, fs, d);
    OwnPart(plain, hs, rev, o, n, i);
    SharedPart(plain, hs, rev, o, n, i);
    var s, t, e := hs[i].start, OwnStart(hs, i), hs[m].end;
    SidesJoin(plain, rev, s, t, e);
    var now, shared := NewLines(plain[t..e], rev), NewLines(plain[s..t], rev);
    var a1, end := Pre(hs[i], rev), PreEnd(hs[m], rev);
    InFileIs(OldLines(plain[s..e], rev), o, a1, end);
    InFileIs(NewLines(plain[s..e], rev), n, Post(hs[i], rev), PostEnd(hs[m], rev));
    OwnBeforeEnd(plain, hs, rev, useAll, o, n, i, m);
    FileIs(plain, hs, rev, useAll, o, i);
    NextDone(hs, rev, m);
    FileIs(plain, hs, rev, useAll, o, m + 1);
    if a1 != OwnPre(hs, rev, i) || shared != [] {
      InFileIs(shared, o, a1, DoneTo(hs, rev, i));
    }
    FileSpliced(ChosenUpTo(plain, hs, rev, useAll, o, i), o, a, b, DoneTo(hs, rev, i), OwnPre(hs, rev, i), a1, end, shared, now, c, c2);
    WrittenIs(plain, hs, rev, i, m, d, f);
    RunShape(plain, hs, rev, useAll, o, n, i, m, f);
    HunkBoundsAt(plain, hs, rev, o, n, i);
    assert shared + now == NewLines(f.patch, rev);
    MakeStep(f, rev, o, c2, a, b, a1, Post(hs[i], rev) + d);
  }

  lemma HunkBoundsAt(plain: seq<PatchLine>, hs: seq<Hunk>, rev: bool, o: seq<Text>, n: seq<Text>, i: nat)
    requires Layout(plain, hs, rev, o, n) && i < |hs|
    ensures 0 <= Pre(hs[i], rev) < PreEnd(hs[i], rev) <= |o| && 0 <= Post(hs[i], rev) < PostEnd(hs[i], rev) <= |n|
  {
    hide Side, HunkOk;
    HunkBounds(plain, rev, o, n, hs[i]);
  }

  lemma WrittenIs(plain: seq<PatchLine>, hs: seq<Hunk>, rev: bool, i: nat, m: nat, d: int, f: Fragment)
    requires i <= m < |hs| && WrittenFor(plain, hs, rev, i, m, d, f) && Pre(hs[i], rev) >= -1 && Post(hs[i], rev) + d >= -1
    ensures hs[i].start <= hs[m].end <= |plain| && f.patch == plain[hs[i].start..hs[m].end]
    ensures f.leading == Leading(f.patch) && f.trailing == Trailing(f.patch)
    ensures f.oldpos == Pre(hs[i], rev) + 1 && f.newpos == Post(hs[i], rev) + d + 1
  {
  }

  /** What stands in both files makes a step. */
  lemma MakeStep(f: Fragment, rev: bool, o: seq<Text>, c2: seq<Text>, a: int, b: int, a1: int, b1: int)
    requires Shaped(f) && f.oldpos == a1 + 1 && f.newpos == b1 + 1 && a1 - a == b1 - b
    requires var was, now := OldLines(f.patch, rev), NewLines(f.patch, rev);
      && was != [] && now != [] && 0 <= a <= a1 <= a1 + |was| <= |o| && 0 <= b <= b1 <= b1 + |now| <= |c2|
      && o[a..a1] == c2[b..b1] && o[a1..a1 + |was|] == was && c2[b1..b1 + |now|] == now
      && (f.leading == 0 ==> a1 == b1 == 0) && (f.trailing == 0 ==> a1 + |was| == |o| && b1 + |now| == |c2|)
    ensures HunkStep(f, rev, o, c2, a, b)
    ensures PreReach(f, rev) == a1 + |OldLines(f.patch, rev)| && PostReach(f, rev) == b1 + |NewLines(f.patch, rev)|
  {
    hide Side, Shaped;
  }

  lemma InStepMeans(plain: seq<PatchLine>, hs: seq<Hunk>, rev: bool, useAll: bool, o: seq<Text>, n: seq<Text>,
                    i: nat, fs: seq<Fragment>, d: int) returns (a: int, b: int)
    requires Layout(plain, hs, rev, o, n) && InStep(plain, hs, rev, useAll, o, n, i, fs, d) && i < |hs| && Chosen(hs[i], useAll)
    ensures a == PreLimit(fs, rev) && b == PostLimit(fs, rev)
    ensures 0 <= a <= DoneTo(hs, rev, i) && a <= Pre(hs[i], rev) && a <= |o| && 0 <= b
    ensures var c := FileAt(plain, hs, rev, useAll, o, i); b <= |c| && o[a..] == c[b..]
    ensures Pre(hs[i], rev) - a == Post(hs[i], rev) + d - b
    ensures i == 0 ==> a == b == d == 0
  {
    hide Side, Layout, HunkOk, InFile, ChosenUpTo, FileAt, Run, Apart, Turns, OwnPre, OwnStart;
    LimitsOf(fs, 0, rev, o, FileAt(plain, hs, rev, useAll, o, i), 0, 0);
    a, b := PreLimit(fs, rev), PostLimit(fs, rev);
    OwnPart(plain, hs, rev, o, n, i);
    HunkBoundsAt(plain, hs, rev, o, n, i);
    if i > 0 {
      StartsAfter(plain, hs, rev, o, n, i);
    }
  }

  /** Writing the hunk for a run of chosen pieces. */
  lemma RunWritten(plain: seq<PatchLine>, hs: seq<Hunk>, rev: bool, useAll: bool, o: seq<Text>, n: seq<Text>,
                   i: nat, m: nat, fs: seq<Fragment>, d: int, f: Fragment)
    requires Layout(plain, hs, rev, o, n) && InStep(plain, hs, rev, useAll, o, n, i, fs, d) && Run(hs, useAll, i, m)
    requires m + 1 < |hs| ==> !Chosen(hs[m + 1], useAll) || !Touches(hs, i, m + 1)
    requires Visible(plain, hs, rev, useAll) && WrittenFor(plain, hs, rev, i, m, d, f)
    ensures InStep(plain, hs, rev, useAll, o, n, m + 1, fs + [f], d)
  {
    hide Side, Layout, HunkOk, Apart, Turns, ChosenUpTo, FileAt, WrittenFor, Run, HunkStep, PreReach, PostReach, Visible, Touches;
    RunBounds(hs, useAll, i, m);
    var c, c2 := FileAt(plain, hs, rev, useAll, o, i), FileAt(plain, hs, rev, useAll, o, m + 1);
    RunIsStep(plain, hs, rev, useAll, o, n, i, m, fs, d, f);
    TurnsEnd(f, rev, o, c2);
    TurnsAppend(fs, 0, rev, o, c, 0, 0, f, c2, Post(hs[i], rev) + d);
    if m + 1 < |hs| && Chosen(hs[m + 1], useAll) {
      RunStops(plain, hs, rev, useAll, o, n, i, m);
    }
  }

  lemma TurnsEnd(f: Fragment, rev: bool, o: seq<Text>, c: seq<Text>)
    ensures 0 <= PreReach(f, rev) <= |o| && 0 <= PostReach(f, rev) <= |c| && o[PreReach(f, rev)..] == c[PostReach(f, rev)..] ==>
      Turns([f], 1, rev, o, c, PreReach(f, rev), PostReach(f, rev))
  {
    hide PreReach, PostReach;
  }

  /** A run of chosen pieces stops only where the next hunk is apart. */
  lemma RunStops(plain: seq<PatchLine>, hs: seq<Hunk>, rev: bool, useAll: bool, o: seq<Text>, n: seq<Text>, i: nat, m: nat)
    requires Layout(plain, hs, rev, o, n) && Run(hs, useAll, i, m) && m + 1 < |hs| && Chosen(hs[m + 1], useAll)
    requires !Touches(hs, i, m + 1) && Visible(plain, hs, rev, useAll)
    ensures Apart(rev, o, n, hs[m], hs[m + 1])
  {
    hide Side, Layout, HunkOk, Apart, Shares;
    AreNeighbours(plain, hs, rev, o, n, m + 1);
    if !Apart(rev, o, n, hs[m], hs[m + 1]) {
      assert VisibleAt(plain, hs, rev, useAll, m + 1);
      assert i == m || Touches(hs, i, m);
      SharedOverlap(plain, rev, hs[m], hs[m + 1]);
    }
  }

  lemma SharedOverlap(plain: seq<PatchLine>, rev: bool, g: Hunk, h: Hunk)
    requires Sharing(plain, rev, g, h)
    ensures g.header.newOffset + g.header.newCount >= h.header.newOffset
  {
  }

  /** Skipping a hunk. */
  lemma HunkSkipped(plain: seq<PatchLine>, hs: seq<Hunk>, rev: bool, useAll: bool, o: seq<Text>, n: seq<Text>,
                    i: nat, fs: seq<Fragment>, d: int)
    requires Layout(plain, hs, rev, o, n) && InStep(plain, hs, rev, useAll, o, n, i, fs, d) && i < |hs| && !Chosen(hs[i], useAll)
    ensures InStep(plain, hs, rev, useAll, o, n, i + 1, fs,
                   d + (PreEnd(hs[i], rev) - Pre(hs[i], rev)) - (PostEnd(hs[i], rev) - Post(hs[i], rev)))
  {
    hide Side, Layout, HunkOk, InFile, Apart, Turns, ChosenUpTo, FileAt, OwnPre, OwnStart, PreLimit, PostLimit;
    OwnPart(plain, hs, rev, o, n, i);
    SkipKeepsFile(plain, hs, rev, useAll, o, n, i);
  }

  /** The hunk that render_hunk writes for the run of hunks from `i` to `m`, at offsets shifted by `delta`. */
  ghost function EmittedFor(plain: seq<PatchLine>, hs: seq<Hunk>, rev: bool, i: nat, m: nat, delta: int): Emitted
    requires i <= m < |hs|
  {
    var f, l := hs[i].header, hs[m].header;
    Emitted(f.oldOffset - (if rev then delta else 0), Natural(l.oldOffset + l.oldCount - f.oldOffset),
            f.newOffset + (if rev then 0 else delta), Natural(l.newOffset + l.newCount - f.newOffset),
            Slice(plain, hs[i].start, hs[m].end))
  }

  /** What reassemble_patch writes from hunk `i` on. */
  ghost function Emission(plain: seq<PatchLine>, hs: seq<Hunk>, useAll: bool, rev: bool, i: nat, delta: int): seq<Emitted>
    decreases |hs| - i
  {
    if i >= |hs| then []
    else if !Chosen(hs[i], useAll) then
      Emission(plain, hs, useAll, rev, i + 1, delta + hs[i].header.oldCount - hs[i].header.newCount)
    else
      var m := RunEnd(hs, useAll, i, i);
      [EmittedFor(plain, hs, rev, i, m, delta)] + Emission(plain, hs, useAll, rev, m + 1, delta + hs[i].delta)
  }

  /** From a state in step on, what is written completes the patch. */
  lemma {:induction false} EmissionInStep(plain: seq<PatchLine>, hs: seq<Hunk>, useAll: bool, rev: bool, o: seq<Text>, n: seq<Text>,
                                          i: nat, delta: int, out: seq<Emitted>)
    requires Layout(plain, hs, rev, o, n) && Visible(plain, hs, rev, useAll) && i <= |hs|
    requires InStep(plain, hs, rev, useAll, o, n, i, FragmentsOf(out, rev), if rev then -delta else delta)
    ensures Turns(FragmentsOf(out + Emission(plain, hs, useAll, rev, i, delta), rev), 0, rev, o, ChosenFile(plain, hs, rev, useAll, o), 0, 0)
    decreases |hs| - i
  {
    hide *;
    var d := if rev then -delta else delta;
    if i == |hs| {
      EmissionEnds(plain, hs, useAll, rev, delta);
      assert out + [] == out;
      ReassembleEnds(plain, hs, rev, useAll, o, n, FragmentsOf(out, rev), d);
    } else {
      EmissionStep(plain, hs, useAll, rev, i, delta);
      if !Chosen(hs[i], useAll) {
        HunkSkipped(plain, hs, rev, useAll, o, n, i, FragmentsOf(out, rev), d);
        SkippedBy(hs[i], rev);
        EmissionInStep(plain, hs, useAll, rev, o, n, i + 1, delta + hs[i].header.oldCount - hs[i].header.newCount, out);
      } else {
        var m := RunEnd(hs, useAll, i, i);
        var e := EmittedFor(plain, hs, rev, i, m, delta);
        RunHolds(hs, useAll, i);
        RunStopsAt(hs, useAll, i);
        EmittedIsWritten(plain, hs, rev, useAll, o, n, i, m, delta);
        RunWritten(plain, hs, rev, useAll, o, n, i, m, FragmentsOf(out, rev), d, FragmentOf(e, rev));
        FragmentsAppend(out, e, rev);
        EmissionInStep(plain, hs, useAll, rev, o, n, m + 1, delta + hs[i].delta, out + [e]);
        var rest := Emission(plain, hs, useAll, rev, m + 1, delta + hs[i].delta);
        assert out + [e] + rest == out + ([e] + rest);
      }
    }
  }

  lemma EmittedIsWritten(plain: seq<PatchLine>, hs: seq<Hunk>, rev: bool, useAll: bool, o: seq<Text>, n: seq<Text>, i: nat, m: nat, delta: int)
    requires Layout(plain, hs, rev, o, n) && Run(hs, useAll, i, m)
    ensures WrittenFor(plain, hs, rev, i, m, if rev then -delta else delta, FragmentOf(EmittedFor(plain, hs, rev, i, m, delta), rev))
    ensures hs[i].delta == 0
  {
    hide Leading, Trailing, Side, Layout, HunkOk, InFile, ChosenUpTo, DoneTo, OwnPre, OwnStart, HunkLines, HasChange;
    RunLines(plain, hs, rev, useAll, o, n, i, m);
    HunkOf(plain, hs, rev, o, n, i);
    HunkBounds(plain, rev, o, n, hs[i]);
  }

  /** reassemble_patch, without the head of the file. */
  method ReassemblePatch(plain: seq<PatchLine>, hs: seq<Hunk>, useAll: bool, isReverse: bool, ghost o: seq<Text>, ghost n: seq<Text>)
    returns (out: seq<Emitted>)
    requires Layout(plain, hs, isReverse, o, n)
    ensures out == Emission(plain, hs, useAll, isReverse, 0, 0)
    ensures forall k | 0 <= k < |out| :: CountsItsLines(out[k])
    ensures if Visible(plain, hs, isReverse, useAll)
      then Turns(FragmentsOf(out, isReverse), 0, isReverse, o, ChosenFile(plain, hs, isReverse, useAll, o), 0, 0)
      else forall c :: !Turns(FragmentsOf(out, isReverse), 0, isReverse, o, c, 0, 0)
  {
    hide *;
    out := [];
    var delta := 0;
    var i := 0;
    while i < |hs|
      invariant Emission(plain, hs, useAll, isReverse, 0, 0) == out + Emission(plain, hs, useAll, isReverse, i, delta)
      invariant i <= |hs| && forall k | 0 <= k < |out| :: CountsItsLines(out[k])
    {
      var hunk := hs[i];
      EmissionStep(plain, hs, useAll, isReverse, i, delta);
      if !Chosen(hunk, useAll) {
        delta := delta + hunk.header.oldCount - hunk.header.newCount;
      } else {
        ghost var first := i;
        var m, merged := MergeHunks(plain, hs, i, useAll, isReverse, o, n);
        MergedBounds(plain, hs, isReverse, useAll, o, n, i, m, merged);
        var h := merged.header;
        var e := if isReverse then Emitted(h.oldOffset - delta, h.oldCount, h.newOffset, h.newCount, plain[merged.start..merged.end])
          else Emitted(h.oldOffset, h.oldCount, h.newOffset + delta, h.newCount, plain[merged.start..merged.end]);
        out := out + [e];
        MergedIsEmitted(plain, hs, isReverse, first, m, merged, delta, e);
        MergedCounts(plain, hs, isReverse, useAll, o, n, first, m, merged, e);
        delta := delta + merged.delta;
        i := m;
      }
      i := i + 1;
    }
    EmissionEnds(plain, hs, useAll, isReverse, delta);
    EmittedIsRight(plain, hs, useAll, isReverse, o, n);
  }

  lemma EmissionStep(plain: seq<PatchLine>, hs: seq<Hunk>, useAll: bool, rev: bool, i: nat, delta: int)
    requires i < |hs|
    ensures Emission(plain, hs, useAll, rev, i, delta) ==
      if !Chosen(hs[i], useAll) then
        Emission(plain, hs, useAll, rev, i + 1, delta + hs[i].header.oldCount - hs[i].header.newCount)
      else
        var m := RunEnd(hs, useAll, i, i);
        [EmittedFor(plain, hs, rev, i, m, delta)] + Emission(plain, hs, useAll, rev, m + 1, delta + hs[i].delta)
  {
  }

  lemma EmissionEnds(plain: seq<PatchLine>, hs: seq<Hunk>, useAll: bool, rev: bool, delta: int)
    ensures Emission(plain, hs, useAll, rev, |hs|, delta) == []
  {
  }

  lemma MergedIsEmitted(plain: seq<PatchLine>, hs: seq<Hunk>, rev: bool, i: nat, m: nat, merged: Hunk, delta: int, e: Emitted)
    requires i <= m < |hs| && Spans(hs, i, m, merged) && merged.start <= merged.end <= |plain|
    requires e == Emitted(merged.header.oldOffset - (if rev then delta else 0), merged.header.oldCount,
                          merged.header.newOffset + (if rev then 0 else delta), merged.header.newCount, plain[merged.start..merged.end])
    ensures e == EmittedFor(plain, hs, rev, i, m, delta) && merged.delta == hs[i].delta
  {
  }

  lemma ReassembleStarts(plain: seq<PatchLine>, hs: seq<Hunk>, rev: bool, useAll: bool, o: seq<Text>, n: seq<Text>)
    ensures InStep(plain, hs, rev, useAll, o, n, 0, FragmentsOf([], rev), 0)
  {
    hide Side;
    assert FragmentsOf([], rev) == [];
    assert FileAt(plain, hs, rev, useAll, o, 0) == o;
  }

  lemma ReassembleEnds(plain: seq<PatchLine>, hs: seq<Hunk>, rev: bool, useAll: bool, o: seq<Text>, n: seq<Text>, fs: seq<Fragment>, d: int)
    requires InStep(plain, hs, rev, useAll, o, n, |hs|, fs, d)
    ensures Turns(fs, 0, rev, o, ChosenFile(plain, hs, rev, useAll, o), 0, 0)
  {
    hide Turns, FileAt;
  }

  lemma SkippedBy(h: Hunk, rev: bool)
    ensures PreEnd(h, rev) - Pre(h, rev) == if rev then h.header.newCount else h.header.oldCount
    ensures PostEnd(h, rev) - Post(h, rev) == if rev then h.header.oldCount else h.header.newCount
  {
  }

  lemma MergedBounds(plain: seq<PatchLine>, hs: seq<Hunk>, rev: bool, useAll: bool, o: seq<Text>, n: seq<Text>, i: nat, m: nat, merged: Hunk)
    requires Layout(plain, hs, rev, o, n) && Run(hs, useAll, i, m) && Spans(hs, i, m, merged)
    ensures i <= m < |hs| && merged.start <= merged.end <= |plain| && merged.delta == 0
  {
    hide Side, Layout, HunkOk, InFile, ChosenUpTo, DoneTo, OwnPre, OwnStart;
    RunLines(plain, hs, rev, useAll, o, n, i, m);
    HunkOf(plain, hs, rev, o, n, i);
    HunkBounds(plain, rev, o, n, hs[i]);
  }

  lemma FragmentsAppend(out: seq<Emitted>, e: Emitted, rev: bool)
    ensures FragmentsOf(out + [e], rev) == FragmentsOf(out, rev) + [FragmentOf(e, rev)]
  {
    hide FragmentOf;
  }

  /** The counts in the header are those of the lines. */
  ghost predicate CountsItsLines(e: Emitted) {
    HunkLines(e.lines) && HasChange(e.lines) && e.oldCount == Old(e.lines) && e.newCount == New(e.lines)
  }

  lemma MergedCounts(plain: seq<PatchLine>, hs: seq<Hunk>, rev: bool, useAll: bool, o: seq<Text>, n: seq<Text>,
                     i: nat, m: nat, merged: Hunk, e: Emitted)
    requires Layout(plain, hs, rev, o, n) && Run(hs, useAll, i, m) && i <= m < |hs| && Spans(hs, i, m, merged)
    requires merged.start <= merged.end <= |plain| && e.lines == plain[merged.start..merged.end]
    requires e.oldCount == merged.header.oldCount && e.newCount == merged.header.newCount
    ensures CountsItsLines(e)
  {
    hide Side, Layout, HunkLines, HasChange, ChosenUpTo, DoneTo, OwnPre, OwnStart, Run, Old, New;
    RunLines(plain, hs, rev, useAll, o, n, i, m);
    SideCounts(e.lines, rev);
    InFileLength(OldLines(e.lines, rev), o, Pre(hs[i], rev), PreEnd(hs[m], rev));
    InFileLength(NewLines(e.lines, rev), n, Post(hs[i], rev), PostEnd(hs[m], rev));
  }

  // ---------- pieces that are not recognised ----------

  /** Hunk `k + 1` starts before the end of hunk `k`. */
  ghost predicate Overlap(fs: seq<Fragment>, rev: bool, k: nat) {
    k + 1 < |fs| && Start(fs[k + 1].oldpos, |OldLines(fs[k + 1].patch, rev)|) < PreReach(fs[k], rev)
  }

  lemma {:induction false} OverlapFitsNothing(fs: seq<Fragment>, rev: bool, k: nat, i: nat, o: seq<Text>, c: seq<Text>, a: int, b: int)
    requires Overlap(fs, rev, k) && i <= k
    ensures !Turns(fs, i, rev, o, c, a, b)
    decreases k - i
  {
    hide Side, Shaped;
    if i < k {
      OverlapFitsNothing(fs, rev, k, i + 1, o, c, PreReach(fs[i], rev), PostReach(fs[i], rev));
    }
  }

  /** New offsets move on by the new lines between the starts. */
  lemma NewStarts(plain: seq<PatchLine>, rev: bool, o: seq<Text>, n: seq<Text>, g: Hunk, h: Hunk)
    requires HunkOk(plain, rev, o, n, g) && HunkOk(plain, rev, o, n, h) && Sharing(plain, rev, g, h)
    ensures h.header.newOffset == g.header.newOffset + New(plain[g.start..h.start])
  {
    hide Side, HunkOk, HunkLines;
    HunkBounds(plain, rev, o, n, g);
    HunkBounds(plain, rev, o, n, h);
    SharedEnds(plain, rev, o, n, g, h);
    CountSplit(plain, g.start, h.start, g.end);
    SideCounts(plain[g.start..g.end], rev);
    SideCounts(plain[h.start..g.end], rev);
  }

  /** Only the first two pieces of a hunk can have the same new offset, so that nothing before them runs into them. */
  lemma SameOffsetComesFirst(plain: seq<PatchLine>, hs: seq<Hunk>, rev: bool, o: seq<Text>, n: seq<Text>, j: nat, i: nat)
    requires Layout(plain, hs, rev, o, n) && i < j - 1 && j < |hs| && Sharing(plain, rev, hs[j - 1], hs[j])
    requires hs[j - 1].header.newOffset >= hs[j].header.newOffset
    ensures !Touches(hs, i, j - 1)
  {
    hide Side, Layout, HunkOk, Touches;
    HunkOf(plain, hs, rev, o, n, j - 1);
    HunkOf(plain, hs, rev, o, n, j);
    NewStarts(plain, rev, o, n, hs[j - 1], hs[j]);
    var s, e := hs[j - 1].start, hs[j].start;
    if Touches(hs, i, j - 1) {
      TouchingShare(plain, hs, rev, o, n, i, j - 1);
      LinesOfPart(plain, s, s, e, hs[j - 1].end);
      OneContext(plain, s, s, e);
    }
  }

  /** The two hunks written for them overlap. */
  lemma {:induction false} EmissionOverlaps(plain: seq<PatchLine>, hs: seq<Hunk>, useAll: bool, rev: bool, o: seq<Text>, n: seq<Text>,
                                            j: nat, i: nat, delta: int) returns (k: nat)
    requires Layout(plain, hs, rev, o, n) && 0 < j < |hs| && i < j && !VisibleAt(plain, hs, rev, useAll, j)
    ensures Overlap(FragmentsOf(Emission(plain, hs, useAll, rev, i, delta), rev), rev, k)
    decreases j - i
  {
    hide *;
    InvisibleMeans(plain, hs, rev, useAll, j);
    EmissionStep(plain, hs, useAll, rev, i, delta);
    if !Chosen(hs[i], useAll) {
      k := EmissionOverlaps(plain, hs, useAll, rev, o, n, j, i + 1, delta + hs[i].header.oldCount - hs[i].header.newCount);
    } else {
      var m := RunEnd(hs, useAll, i, i);
      var e, rest := EmittedFor(plain, hs, rev, i, m, delta), Emission(plain, hs, useAll, rev, m + 1, delta + hs[i].delta);
      RunHolds(hs, useAll, i);
      if i < j - 1 {
        SameOffsetComesFirst(plain, hs, rev, o, n, j, i);
        RunDoesNotPass(hs, useAll, i, m, j - 1);
        var k0 := EmissionOverlaps(plain, hs, useAll, rev, o, n, j, m + 1, delta + hs[i].delta);
        OverlapLater(e, rest, rev, k0);
        k := k0 + 1;
      } else {
        RunDoesNotPass(hs, useAll, i, m, j);
        EmissionStep(plain, hs, useAll, rev, j, delta + hs[i].delta);
        FirstTwoOverlap(plain, hs, useAll, rev, o, n, i, delta, delta + hs[i].delta);
        OverlapFirst(e, rest, rev, EmittedFor(plain, hs, rev, j, RunEnd(hs, useAll, j, j), delta + hs[i].delta));
        k := 0;
      }
    }
  }

  lemma InvisibleMeans(plain: seq<PatchLine>, hs: seq<Hunk>, rev: bool, useAll: bool, j: nat)
    requires 0 < j < |hs| && !VisibleAt(plain, hs, rev, useAll, j)
    ensures Sharing(plain, rev, hs[j - 1], hs[j]) && Chosen(hs[j - 1], useAll) && Chosen(hs[j], useAll)
    ensures hs[j - 1].header.newOffset >= hs[j].header.newOffset && !Touches(hs, j - 1, j)
  {
    hide Sharing;
  }

  lemma RunStopsAt(hs: seq<Hunk>, useAll: bool, i: nat)
    requires i < |hs| && Chosen(hs[i], useAll)
    ensures var r := RunEnd(hs, useAll, i, i); r + 1 < |hs| ==> !Chosen(hs[r + 1], useAll) || !Touches(hs, i, r + 1)
  {
    hide Touches;
    RunToEnd(hs, useAll, i, i);
  }

  lemma RunHolds(hs: seq<Hunk>, useAll: bool, i: nat)
    requires i < |hs| && Chosen(hs[i], useAll)
    ensures Run(hs, useAll, i, RunEnd(hs, useAll, i, i))
  {
    hide Touches;
    RunToEnd(hs, useAll, i, i);
  }

  lemma RunDoesNotPass(hs: seq<Hunk>, useAll: bool, i: nat, m: nat, j: nat)
    requires Run(hs, useAll, i, m) && i < j < |hs| && !Touches(hs, i, j)
    ensures m < j
  {
    hide Touches;
  }

  lemma OverlapLater(e: Emitted, rest: seq<Emitted>, rev: bool, k: nat)
    requires Overlap(FragmentsOf(rest, rev), rev, k)
    ensures Overlap(FragmentsOf([e] + rest, rev), rev, k + 1)
  {
    hide Side, FragmentOf;
    var fs, gs := FragmentsOf(rest, rev), FragmentsOf([e] + rest, rev);
    assert gs[k + 1] == fs[k] && gs[k + 2] == fs[k + 1];
  }

  lemma OverlapFirst(e: Emitted, rest: seq<Emitted>, rev: bool, e2: Emitted)
    requires rest != [] && rest[0] == e2
    requires Start(FragmentOf(e2, rev).oldpos, |OldLines(e2.lines, rev)|) < PreReach(FragmentOf(e, rev), rev)
    ensures Overlap(FragmentsOf([e] + rest, rev), rev, 0)
  {
    hide Side;
    var gs := FragmentsOf([e] + rest, rev);
    assert gs[0] == FragmentOf(e, rev) && gs[1] == FragmentOf(e2, rev);
  }

  lemma FirstTwoOverlap(plain: seq<PatchLine>, hs: seq<Hunk>, useAll: bool, rev: bool, o: seq<Text>, n: seq<Text>, i: nat, d: int, d2: int)
    requires Layout(plain, hs, rev, o, n) && i + 1 < |hs| && Sharing(plain, rev, hs[i], hs[i + 1])
    requires Chosen(hs[i], useAll) && Chosen(hs[i + 1], useAll)
    ensures var m := RunEnd(hs, useAll, i + 1, i + 1);
      var e, e2 := EmittedFor(plain, hs, rev, i, i, d), EmittedFor(plain, hs, rev, i + 1, m, d2);
      Start(FragmentOf(e2, rev).oldpos, |OldLines(e2.lines, rev)|) < PreReach(FragmentOf(e, rev), rev)
  {
    hide Side, Layout, HunkOk, HunkLines, HasChange, Leading, Trailing, ChosenUpTo, DoneTo, OwnPre, OwnStart, Run, Touches, InFile, Sharing, RunEnd;
    var m := RunEnd(hs, useAll, i + 1, i + 1);
    RunHolds(hs, useAll, i + 1);
    RunAlone(hs, useAll, i);
    RunLines(plain, hs, rev, useAll, o, n, i, i);
    RunLines(plain, hs, rev, useAll, o, n, i + 1, m);
    InFileLength(OldLines(plain[hs[i].start..hs[i].end], rev), o, Pre(hs[i], rev), PreEnd(hs[i], rev));
    InFileLength(OldLines(plain[hs[i + 1].start..hs[m].end], rev), o, Pre(hs[i + 1], rev), PreEnd(hs[m], rev));
    OwnBeforeEnd(plain, hs, rev, useAll, o, n, i + 1, m);
    HunkBoundsAt(plain, hs, rev, o, n, i);
    HunkBoundsAt(plain, hs, rev, o, n, i + 1);
    SharedStartsEarlier(plain, rev, hs[i], hs[i + 1]);
  }

  lemma RunAlone(hs: seq<Hunk>, useAll: bool, i: nat)
    requires i < |hs| && Chosen(hs[i], useAll)
    ensures Run(hs, useAll, i, i)
  {
  }

  lemma SharedStartsEarlier(plain: seq<PatchLine>, rev: bool, g: Hunk, h: Hunk)
    requires Sharing(plain, rev, g, h)
    ensures Pre(h, rev) < PreEnd(g, rev)
  {
  }

  /** The emitted patch makes the chosen file exactly when chosen pieces are recognised; otherwise there is no file that it makes. */
  lemma EmittedIsRight(plain: seq<PatchLine>, hs: seq<Hunk>, useAll: bool, rev: bool, o: seq<Text>, n: seq<Text>)
    requires Layout(plain, hs, rev, o, n)
    ensures var fs := FragmentsOf(Emission(plain, hs, useAll, rev, 0, 0), rev);
      if Visible(plain, hs, rev, useAll) then Turns(fs, 0, rev, o, ChosenFile(plain, hs, rev, useAll, o), 0, 0)
      else forall c :: !Turns(fs, 0, rev, o, c, 0, 0)
  {
    hide *;
    if Visible(plain, hs, rev, useAll) {
      ReassembleStarts(plain, hs, rev, useAll, o, n);
      EmissionInStep(plain, hs, useAll, rev, o, n, 0, 0, []);
      assert [] + Emission(plain, hs, useAll, rev, 0, 0) == Emission(plain, hs, useAll, rev, 0, 0);
    } else {
      var j := FirstInvisible(plain, hs, rev, useAll);
      var k := EmissionOverlaps(plain, hs, useAll, rev, o, n, j, 0, 0);
      var fs := FragmentsOf(Emission(plain, hs, useAll, rev, 0, 0), rev);
      forall c ensures !Turns(fs, 0, rev, o, c, 0, 0) {
        OverlapFitsNothing(fs, rev, k, 0, o, c, 0, 0);
      }
    }
  }

  lemma FirstInvisible(plain: seq<PatchLine>, hs: seq<Hunk>, rev: bool, useAll: bool) returns (j: nat)
    requires !Visible(plain, hs, rev, useAll)
    ensures 0 < j < |hs| && !VisibleAt(plain, hs, rev, useAll, j)
  {
    hide VisibleAt;
    j :| 0 < j < |hs| && !VisibleAt(plain, hs, rev, useAll, j);
  }

  // ---------- from a diff to a layout ----------

  /** The hunks of a diff before any is split, as fragments. */
  ghost function DiffFragments(plain: seq<PatchLine>, hs: seq<Hunk>, rev: bool): (fs: seq<Fragment>)
    ensures |fs| == |hs| && forall i | 0 <= i < |hs| :: fs[i] == DiffFragment(plain, hs[i], rev)
  {
    seq(|hs|, i requires 0 <= i < |hs| => DiffFragment(plain, hs[i], rev))
  }

  ghost function DiffFragment(plain: seq<PatchLine>, h: Hunk, rev: bool): Fragment {
    FragmentOf(Emitted(h.header.oldOffset, h.header.oldCount, h.header.newOffset, h.header.newCount, Slice(plain, h.start, h.end)), rev)
  }

  /** Hunks as parse_diff leaves them: their headers count their lines, on both sides some, and lines lie between them. */
  ghost predicate FreshHunks(plain: seq<PatchLine>, hs: seq<Hunk>, rev: bool) {
    && (forall j | 0 <= j < |hs| :: FreshHunk(plain, hs[j]))
    && forall j | 0 < j < |hs| :: FreshPair(hs[j - 1], hs[j], rev)
  }

  ghost predicate FreshHunk(plain: seq<PatchLine>, h: Hunk) {
    && Counted(plain, h) && h.delta == 0
    && h.header.oldCount > 0 && h.header.newCount > 0 && h.header.oldOffset > 0 && h.header.newOffset > 0
  }

  ghost predicate FreshPair(g: Hunk, h: Hunk, rev: bool) {
    g.end <= h.start && PreEnd(g, rev) < Pre(h, rev)
  }

  lemma {:induction false} TurnsFrom(plain: seq<PatchLine>, hs: seq<Hunk>, rev: bool, o: seq<Text>, n: seq<Text>, i: nat)
    requires FreshHunks(plain, hs, rev) && i <= |hs| && Turns(DiffFragments(plain, hs, rev), 0, rev, o, n, 0, 0)
    ensures Turns(DiffFragments(plain, hs, rev), i, rev, o, n, DoneTo(hs, rev, i), PostDoneTo(hs, rev, i))
  {
    hide Side, HunkStep;
    if i > 0 {
      TurnsFrom(plain, hs, rev, o, n, i - 1);
      FreshReach(plain, hs[i - 1], rev);
    }
  }

  lemma FreshReach(plain: seq<PatchLine>, h: Hunk, rev: bool)
    requires FreshHunk(plain, h)
    ensures PreReach(DiffFragment(plain, h, rev), rev) == PreEnd(h, rev)
    ensures PostReach(DiffFragment(plain, h, rev), rev) == PostEnd(h, rev)
  {
    hide Side, Leading, Trailing, Old, New;
    SideCounts(plain[h.start..h.end], rev);
  }

  lemma FreshHunkOk(plain: seq<PatchLine>, h: Hunk, rev: bool, o: seq<Text>, n: seq<Text>, a: int, b: int)
    requires FreshHunk(plain, h) && HunkStep(DiffFragment(plain, h, rev), rev, o, n, a, b)
    ensures HunkOk(plain, rev, o, n, h)
    ensures 0 <= a <= Pre(h, rev) && 0 <= b <= Post(h, rev) && Pre(h, rev) - a == Post(h, rev) - b
    ensures o[a..Pre(h, rev)] == n[b..Post(h, rev)]
  {
    hide Side, Leading, Trailing, Old, New, Groups, HasChange, HunkLines;
    var f, lines := DiffFragment(plain, h, rev), plain[h.start..h.end];
    SideCounts(lines, rev);
    NoLeading(lines);
    assert lines[0] == plain[h.start] && lines[|lines| - 1] == plain[h.end - 1];
  }

  lemma NoLeading(lines: seq<PatchLine>)
    requires lines != []
    ensures IsChange(lines[0]) ==> Leading(lines) == 0
    ensures IsChange(lines[|lines| - 1]) ==> Trailing(lines) == 0
  {
  }

  /** A diff whose hunks are counted and lie apart is laid out as it should be. */
  lemma LayoutOfDiff(plain: seq<PatchLine>, hs: seq<Hunk>, rev: bool, o: seq<Text>, n: seq<Text>)
    requires FreshHunks(plain, hs, rev) && Turns(DiffFragments(plain, hs, rev), 0, rev, o, n, 0, 0)
    ensures Layout(plain, hs, rev, o, n)
  {
    hide Side, HunkStep, HunkOk, FreshHunk, DiffFragments, DiffFragment, Turns;
    forall j | 0 <= j < |hs| ensures HunkOk(plain, rev, o, n, hs[j]) && FollowsOn(hs, rev, o, n, j) {
      FreshFollowsOn(plain, hs, rev, o, n, j);
    }
    forall j | 0 <= j < |hs| - 1 ensures Neighbours(plain, rev, o, n, hs[j], hs[j + 1]) {
      assert FreshPair(hs[(j + 1) - 1], hs[j + 1], rev) && FollowsOn(hs, rev, o, n, j + 1);
      HunkBounds(plain, rev, o, n, hs[j]);
    }
    TurnsFrom(plain, hs, rev, o, n, |hs|);
    TurnsAtEnd(DiffFragments(plain, hs, rev), rev, o, n, DoneTo(hs, rev, |hs|), PostDoneTo(hs, rev, |hs|));
    if hs != [] {
      assert FollowsOn(hs, rev, o, n, 0);
    }
  }

  lemma TurnsAtEnd(fs: seq<Fragment>, rev: bool, o: seq<Text>, n: seq<Text>, a: int, b: int)
    requires Turns(fs, |fs|, rev, o, n, a, b)
    ensures 0 <= a <= |o| && 0 <= b <= |n| && o[a..] == n[b..]
  {
  }

  /** The files agree between hunk `j` and the one before it. */
  ghost predicate FollowsOn(hs: seq<Hunk>, rev: bool, o: seq<Text>, n: seq<Text>, j: nat)
    requires j < |hs|
  {
    var a, b := DoneTo(hs, rev, j), PostDoneTo(hs, rev, j);
    && 0 <= a <= Pre(hs[j], rev) <= |o| && 0 <= b <= Post(hs[j], rev) <= |n| && Pre(hs[j], rev) - a == Post(hs[j], rev) - b
    && o[a..Pre(hs[j], rev)] == n[b..Post(hs[j], rev)]
  }

  lemma FreshFollowsOn(plain: seq<PatchLine>, hs: seq<Hunk>, rev: bool, o: seq<Text>, n: seq<Text>, j: nat)
    requires FreshHunks(plain, hs, rev) && Turns(DiffFragments(plain, hs, rev), 0, rev, o, n, 0, 0) && j < |hs|
    ensures HunkOk(plain, rev, o, n, hs[j]) && FollowsOn(hs, rev, o, n, j)
  {
    hide Side, HunkStep, HunkOk, FreshHunk, DiffFragment, DoneTo, PostDoneTo, FreshPair;
    TurnsFrom(plain, hs, rev, o, n, j);
    FreshHunkOk(plain, hs[j], rev, o, n, DoneTo(hs, rev, j), PostDoneTo(hs, rev, j));
    HunkBounds(plain, rev, o, n, hs[j]);
  }

  // ---------- from the chosen hunks to the changed file ----------

  /** A hunk whose header counts its lines is parsed whole. */
  lemma WholeBody(e: Emitted, k: nat)
    requires CountsItsLines(e)
    ensures IsBody(e.lines, |e.lines|, e.oldCount, e.newCount)
    ensures IsBody(e.lines, k, e.oldCount, e.newCount) ==> k == |e.lines|
  {
    hide HasChange;
    assert e.lines[..|e.lines|] == e.lines;
    CountsAreLengths(e.lines);
    forall i | 0 <= i < |e.lines| ensures IsKnown(e.lines[i].first) {
      assert IsHunkLine(e.lines[i]);
    }
    if IsBody(e.lines, k, e.oldCount, e.newCount) {
      CountsGrow(e.lines, k, |e.lines|);
    }
  }

  lemma {:induction false} CountsAreLengths(lines: seq<PatchLine>)
    requires HunkLines(lines)
    ensures OldCount(lines) == Old(lines) && NewCount(lines) == New(lines)
  {
    if lines != [] {
      var last := |lines| - 1;
      assert IsHunkLine(lines[last]);
      CountsAreLengths(lines[..last]);
    }
  }

  /** Writes the patch for the chosen hunks and applies it: the file changes in those places and in no other. */
  method ApplyChosen(img: Img, plain: seq<PatchLine>, hs: seq<Hunk>, useAll: bool, opt: Options, ghost n: seq<Text>) returns (ok: bool)
    requires img.Valid() && (forall i | 0 <= i < |img.line| :: !img.line[i].patched) && !opt.noAdd
    requires Layout(plain, hs, opt.inReverse, img.lines, n) && Visible(plain, hs, opt.inReverse, useAll)
    modifies img
    ensures img.Valid()
    ensures |ChosenFile(plain, hs, opt.inReverse, useAll, old(img.lines))| <= INT_MAX ==>
      ok && img.lines == ChosenFile(plain, hs, opt.inReverse, useAll, old(img.lines))
  {
    hide *;
    ghost var o := img.lines;
    var out := ReassemblePatch(plain, hs, useAll, opt.inReverse, o, n);
    var fs := ReadPatch(out, opt.inReverse);
    TurnsAreShaped(fs, 0, opt.inReverse, o, ChosenFile(plain, hs, opt.inReverse, useAll, o), 0, 0);
    var rejected;
    ok, rejected := ApplyFragments(img, fs, opt, false, ChosenFile(plain, hs, opt.inReverse, useAll, o));
  }

  /** Reads the hunks back as apply.c does. */
  method ReadPatch(out: seq<Emitted>, rev: bool) returns (fs: seq<Fragment>)
    requires forall k | 0 <= k < |out| :: CountsItsLines(out[k])
    ensures fs == FragmentsOf(out, rev)
  {
    hide *;
    fs := [];
    for i := 0 to |out|
      invariant |fs| == i && forall k | 0 <= k < i :: fs[k] == FragmentOf(out[k], rev)
    {
      var e := out[i];
      var parsed, len, leading, trailing := ParseBody(e.lines, e.oldCount, e.newCount);
      WholeBody(e, len);
      ParsedFragment(e, rev);
      var f := Fragment(leading, trailing, Natural(e.oldOffset), e.oldCount, Natural(e.newOffset), e.newCount, e.lines);
      fs := fs + [if rev then Swapped(f) else f];
    }
    AreFragments(out, fs, rev);
  }

  lemma ParsedFragment(e: Emitted, rev: bool)
    ensures var f := Fragment(Leading(e.lines[..|e.lines|]), Trailing(e.lines[..|e.lines|]), Natural(e.oldOffset), e.oldCount,
                              Natural(e.newOffset), e.newCount, e.lines);
      FragmentOf(e, rev) == if rev then Swapped(f) else f
  {
    assert e.lines[..|e.lines|] == e.lines;
  }

  lemma AreFragments(out: seq<Emitted>, fs: seq<Fragment>, rev: bool)
    requires |fs| == |out| && forall k | 0 <= k < |out| :: fs[k] == FragmentOf(out[k], rev)
    ensures fs == FragmentsOf(out, rev)
  {
    hide FragmentOf;
  }

  lemma {:induction false} TurnsAreShaped(fs: seq<Fragment>, i: nat, rev: bool, o: seq<Text>, n: seq<Text>, a: int, b: int)
    requires i <= |fs| && Turns(fs, i, rev, o, n, a, b)
    ensures forall k | i <= k < |fs| :: Shaped(fs[k])
    decreases |fs| - i
  {
    hide Side, Shaped;
    if i < |fs| {
      TurnsAreShaped(fs, i + 1, rev, o, n, PreReach(fs[i], rev), PostReach(fs[i], rev));
    }
  }

  // ---------- a session ----------

  /** Can the pieces of a hunk be told apart by their new offsets? */
  predicate Tellable(plain: seq<PatchLine>, h: Hunk) {
    h.splittableInto >= 2 ==> !StartsByDeleting(plain, h)
  }

  /** What holds from reading the diff on, through splitting and choosing. */
  ghost predicate Ready(plain: seq<PatchLine>, hs: seq<Hunk>, rev: bool, o: seq<Text>, n: seq<Text>) {
    Layout(plain, hs, rev, o, n) && Visible(plain, hs, rev, true) && forall j | 0 <= j < |hs| :: Tellable(plain, hs[j])
  }

  /** A diff is ready if no hunk that can be split starts by deleting; one that starts with a context line does not. */
  lemma DiffIsReady(plain: seq<PatchLine>, hs: seq<Hunk>, rev: bool, o: seq<Text>, n: seq<Text>)
    requires FreshHunks(plain, hs, rev) && Turns(DiffFragments(plain, hs, rev), 0, rev, o, n, 0, 0)
    requires forall j | 0 <= j < |hs| :: Tellable(plain, hs[j])
    ensures Ready(plain, hs, rev, o, n)
  {
    hide Side, Layout, Turns, DiffFragments, Tellable;
    LayoutOfDiff(plain, hs, rev, o, n);
    forall j | 0 < j < |hs| ensures VisibleAt(plain, hs, rev, true, j) {
      assert FreshPair(hs[j - 1], hs[j], rev);
    }
  }

  /** The header of a hunk counts its lines, on both sides some. */
  ghost predicate HeaderCounts(plain: seq<PatchLine>, h: Hunk) {
    && h.start < h.end <= |plain| && h.header.oldOffset > 0 && h.header.newOffset > 0
    && h.header.oldCount == Old(plain[h.start..h.end]) > 0 && h.header.newCount == New(plain[h.start..h.end]) > 0
  }

  /** Reading a diff of `o` and `n` whose headers are right starts a session. */
  method OpenDiff(plain: seq<PatchLine>, parse: Text -> Header, ghost rev: bool, ghost o: seq<Text>, ghost n: seq<Text>) returns (file: FileDiff)
    requires (plain == [] || plain[0].first == '@') && forall i | 0 <= i < |plain| :: plain[i].first == '@' || IsHunkLine(plain[i])
    requires var hs := HunksFrom(plain, parse, 0);
      && (forall j | 0 <= j < |hs| :: HeaderCounts(plain, hs[j]) && Tellable(plain, hs[j]))
      && (forall j | 0 < j < |hs| :: FreshPair(hs[j - 1], hs[j], rev))
      && Turns(DiffFragments(plain, hs, rev), 0, rev, o, n, 0, 0)
    ensures fresh(file) && file.plain == plain && file.hunk == HunksFrom(plain, parse, 0)
    ensures Ready(plain, file.hunk, rev, o, n)
  {
    hide Side, Groups, Old, New, Turns, DiffFragments, Tellable, FreshPair, HunksFrom, Ready;
    var hs := ParseDiff(plain, parse);
    forall j | 0 <= j < |hs| ensures FreshHunk(plain, hs[j]) {
      ParsedIsCounted(plain, parse, hs[j]);
    }
    DiffIsReady(plain, hs, rev, o, n);
    file := new FileDiff(plain, hs);
  }

  /** Pieces are told apart by their new offsets, except for the first two of a hunk that starts by deleting. */
  lemma PiecesVisible(plain: seq<PatchLine>, h: Hunk, ps: seq<Hunk>, k: nat)
    requires Counted(plain, h) && CutUp(plain, h, ps) && |ps| >= 2 && k < |ps| - 1
    ensures ps[k].header.newOffset < ps[k + 1].header.newOffset <==> !(k == 0 && StartsByDeleting(plain, h))
  {
    hide Side, Groups, Old, New, StartsByDeleting;
    var p, q := ps[k], ps[k + 1];
    assert Shares(plain, p, q) && PieceOk(plain, h, p) && PieceOk(plain, h, q) && PieceOk(plain, h, ps[0]);
    NoLines(plain, h.start);
    CountSplit(plain, h.start, p.start, q.start);
    if k > 0 {
      assert Shares(plain, ps[k - 1], ps[(k - 1) + 1]);
      LinesOfPart(plain, h.start, p.start, q.start, h.end);
      OneContext(plain, p.start, p.start, q.start);
    } else {
      NewBeforeShared(plain, h, ps);
    }
  }

  /** A piece cannot be split again. */
  lemma PiecesTellable(plain: seq<PatchLine>, h: Hunk, ps: seq<Hunk>, k: nat)
    requires CutUp(plain, h, ps) && k < |ps|
    ensures Tellable(plain, ps[k])
  {
    hide Side, Groups, Old, New;
    assert PieceOk(plain, h, ps[k]);
  }

  /** split_hunk in a session. */
  method Split(file: FileDiff, index: nat, ghost rev: bool, ghost o: seq<Text>, ghost n: seq<Text>)
    requires index < |file.hunk| && Ready(file.plain, file.hunk, rev, o, n)
    modifies file`hunk
    ensures Ready(file.plain, file.hunk, rev, o, n)
  {
    hide *;
    ghost var hs := file.hunk;
    ReadyMeans(file.plain, hs, rev, o, n);
    CountedAt(file.plain, hs, rev, o, n, index);
    file.SplitHunk(index);
    if hs[index].splittableInto >= 2 {
      ghost var ps :| CutUp(file.plain, hs[index], ps) && file.hunk == hs[..index] + ps + hs[index + 1..];
      SplitKeepsReady(file.plain, hs, rev, o, n, index, ps);
    }
  }

  lemma ReadyMeans(plain: seq<PatchLine>, hs: seq<Hunk>, rev: bool, o: seq<Text>, n: seq<Text>)
    requires Ready(plain, hs, rev, o, n)
    ensures Layout(plain, hs, rev, o, n) && forall useAll :: Visible(plain, hs, rev, useAll)
  {
    hide Layout, Sharing;
    forall useAll, j: nat | 0 < j < |hs| ensures VisibleAt(plain, hs, rev, useAll, j) {
      assert VisibleAt(plain, hs, rev, true, j);
    }
  }

  lemma CountedAt(plain: seq<PatchLine>, hs: seq<Hunk>, rev: bool, o: seq<Text>, n: seq<Text>, i: nat)
    requires Layout(plain, hs, rev, o, n) && i < |hs|
    ensures Counted(plain, hs[i])
  {
    hide Side, HunkOk, HunkLines;
    HunkBounds(plain, rev, o, n, hs[i]);
    SideCounts(plain[hs[i].start..hs[i].end], rev);
  }

  /** Splitting a hunk leaves all pieces recognisable exactly when the hunk does not start by deleting. */
  lemma SplitStaysVisible(plain: seq<PatchLine>, hs: seq<Hunk>, rev: bool, o: seq<Text>, n: seq<Text>, i: nat, ps: seq<Hunk>)
    requires Layout(plain, hs, rev, o, n) && Visible(plain, hs, rev, true)
    requires i < |hs| && hs[i].splittableInto >= 2 && CutUp(plain, hs[i], ps)
    ensures Visible(plain, hs[..i] + ps + hs[i + 1..], rev, true) <==> !StartsByDeleting(plain, hs[i])
  {
    hide Side, Layout, CutUp, Sharing, Counted, StartsByDeleting;
    var h, all := hs[i], hs[..i] + ps + hs[i + 1..];
    CountedAt(plain, hs, rev, o, n, i);
    PieceCount(plain, h, ps);
    if StartsByDeleting(plain, h) {
      HunkOf(plain, hs, rev, o, n, i);
      PiecesShare(plain, rev, o, n, h, ps, 0);
      PiecesVisible(plain, h, ps, 0);
      assert all[i] == ps[0] && all[i + 1] == ps[1];
      assert !VisibleAt(plain, all, rev, true, i + 1);
    } else {
      forall j | 0 < j < |all| ensures VisibleAt(plain, all, rev, true, j) {
        if i < j < i + |ps| {
          PiecesVisible(plain, h, ps, j - 1 - i);
          assert all[j - 1] == ps[j - 1 - i] && all[j] == ps[j - 1 - i + 1];
        } else if j == i {
          BorderApart(plain, hs, rev, o, n, i, ps);
          assert all[j - 1] == hs[i - 1] && all[j] == ps[0];
        } else if j == i + |ps| {
          BorderApart(plain, hs, rev, o, n, i, ps);
          assert all[j - 1] == ps[|ps| - 1] && all[j] == hs[i + 1];
        } else {
          var k := if j < i then j else j - |ps| + 1;
          assert all[j - 1] == hs[k - 1] && all[j] == hs[k] && VisibleAt(plain, hs, rev, true, k);
        }
      }
    }
  }

  lemma SplitKeepsReady(plain: seq<PatchLine>, hs: seq<Hunk>, rev: bool, o: seq<Text>, n: seq<Text>, i: nat, ps: seq<Hunk>)
    requires Ready(plain, hs, rev, o, n) && i < |hs| && hs[i].splittableInto >= 2 && CutUp(plain, hs[i], ps)
    ensures Ready(plain, hs[..i] + ps + hs[i + 1..], rev, o, n)
  {
    hide Side, Layout, CutUp, Sharing, StartsByDeleting, Visible;
    var h, all := hs[i], hs[..i] + ps + hs[i + 1..];
    SplitKeepsLayout(plain, hs, rev, o, n, i, ps);
    assert Tellable(plain, h);
    SplitStaysVisible(plain, hs, rev, o, n, i, ps);
    forall j | 0 <= j < |all| ensures Tellable(plain, all[j]) {
      if i <= j < i + |ps| {
        PiecesTellable(plain, h, ps, j - i);
      } else {
        assert all[j] == hs[if j < i then j else j - |ps| + 1];
      }
    }
  }

  lemma PieceCount(plain: seq<PatchLine>, h: Hunk, ps: seq<Hunk>)
    requires CutUp(plain, h, ps)
    ensures |ps| == h.splittableInto
  {
  }

  /** The pieces at either end share nothing with the neighbours of the hunk. */
  lemma BorderApart(plain: seq<PatchLine>, hs: seq<Hunk>, rev: bool, o: seq<Text>, n: seq<Text>, i: nat, ps: seq<Hunk>)
    requires Layout(plain, hs, rev, o, n) && i < |hs| && hs[i].splittableInto >= 2 && CutUp(plain, hs[i], ps)
    ensures i > 0 ==> !Sharing(plain, rev, hs[i - 1], ps[0])
    ensures i + 1 < |hs| ==> !Sharing(plain, rev, ps[|ps| - 1], hs[i + 1])
  {
    hide Side, Layout, HunkOk, Groups, PieceOk;
    if i > 0 {
      AreNeighbours(plain, hs, rev, o, n, i);
    }
    if i + 1 < |hs| {
      AreNeighbours(plain, hs, rev, o, n, i + 1);
    }
  }

  /** Choosing or skipping a hunk. */
  method Choose(file: FileDiff, index: nat, use: Use, ghost rev: bool, ghost o: seq<Text>, ghost n: seq<Text>)
    requires index < |file.hunk| && Ready(file.plain, file.hunk, rev, o, n)
    modifies file`hunk
    ensures Ready(file.plain, file.hunk, rev, o, n) && file.hunk == old(file.hunk)[index := old(file.hunk[index]).(use := use)]
  {
    ChoiceKeepsReady(file.plain, file.hunk, rev, o, n, index, use);
    file.hunk := file.hunk[index := file.hunk[index].(use := use)];
  }

  lemma ChoiceKeepsReady(plain: seq<PatchLine>, hs: seq<Hunk>, rev: bool, o: seq<Text>, n: seq<Text>, i: nat, use: Use)
    requires Ready(plain, hs, rev, o, n) && i < |hs|
    ensures Ready(plain, hs[i := hs[i].(use := use)], rev, o, n)
  {
    hide HunkOk, Apart, Sharing, OnlyRemovals;
    var all := hs[i := hs[i].(use := use)];
    forall j | 0 <= j < |all| ensures HunkOk(plain, rev, o, n, all[j]) {
      OkWhateverUse(plain, rev, o, n, hs[j], all[j]);
    }
    forall j | 0 <= j < |all| - 1 ensures Neighbours(plain, rev, o, n, all[j], all[j + 1]) {
      assert Neighbours(plain, rev, o, n, hs[j], hs[j + 1]);
      ApartWhateverUse(plain, rev, o, n, hs[j], hs[j + 1], all[j], all[j + 1]);
    }
    forall j | 0 < j < |all| ensures VisibleAt(plain, all, rev, true, j) {
      assert VisibleAt(plain, hs, rev, true, j);
      ApartWhateverUse(plain, rev, o, n, hs[j - 1], hs[j], all[j - 1], all[j]);
    }
    forall j | 0 <= j < |all| ensures Tellable(plain, all[j]) {
      assert hs[j].start == all[j].start && hs[j].end == all[j].end;
    }
  }

  lemma OkWhateverUse(plain: seq<PatchLine>, rev: bool, o: seq<Text>, n: seq<Text>, h: Hunk, h2: Hunk)
    requires h2 == h.(use := h2.use)
    ensures HunkOk(plain, rev, o, n, h) <==> HunkOk(plain, rev, o, n, h2)
  {
    hide Side, HunkLines, HasChange, Groups, InFile;
  }

  lemma ApartWhateverUse(plain: seq<PatchLine>, rev: bool, o: seq<Text>, n: seq<Text>, g: Hunk, h: Hunk, g2: Hunk, h2: Hunk)
    requires g2 == g.(use := g2.use) && h2 == h.(use := h2.use)
    ensures Apart(rev, o, n, g, h) <==> Apart(rev, o, n, g2, h2)
    ensures Sharing(plain, rev, g, h) <==> Sharing(plain, rev, g2, h2)
  {
  }

  /** At any moment of a session, applying the emitted patch changes what is chosen and nothing else. */
  method ApplyReady(img: Img, file: FileDiff, useAll: bool, opt: Options, ghost n: seq<Text>) returns (ok: bool)
    requires img.Valid() && (forall i | 0 <= i < |img.line| :: !img.line[i].patched) && !opt.noAdd
    requires Ready(file.plain, file.hunk, opt.inReverse, img.lines, n)
    modifies img
    ensures img.Valid()
    ensures |ChosenFile(file.plain, file.hunk, opt.inReverse, useAll, old(img.lines))| <= INT_MAX ==>
      ok && img.lines == ChosenFile(file.plain, file.hunk, opt.inReverse, useAll, old(img.lines))
  {
    hide *;
    ReadyMeans(file.plain, file.hunk, opt.inReverse, img.lines, n);
    ok := ApplyChosen(img, file.plain, file.hunk, useAll, opt, n);
  }

  // ---------- a hunk that starts by deleting ----------

  /** After a split, the patch for everything makes the other file exactly when the hunk does not start by deleting. */
  lemma SplitDecides(plain: seq<PatchLine>, hs: seq<Hunk>, rev: bool, o: seq<Text>, n: seq<Text>, i: nat, ps: seq<Hunk>)
    requires Layout(plain, hs, rev, o, n) && Visible(plain, hs, rev, true)
    requires i < |hs| && hs[i].splittableInto >= 2 && CutUp(plain, hs[i], ps)
    ensures var fs := FragmentsOf(Emission(plain, hs[..i] + ps + hs[i + 1..], true, rev, 0, 0), rev);
      Turns(fs, 0, rev, o, n, 0, 0) <==> !StartsByDeleting(plain, hs[i])
  {
    hide *;
    var all := hs[..i] + ps + hs[i + 1..];
    SplitKeepsLayout(plain, hs, rev, o, n, i, ps);
    SplitStaysVisible(plain, hs, rev, o, n, i, ps);
    EmittedIsRight(plain, all, true, rev, o, n);
    ChoosingAllMakesNew(plain, all, rev, o, n);
  }

  const REMOVE_A := PatchLine('-', "a\n")
  const KEEP_B := PatchLine(' ', "b\n")
  const REMOVE_C := PatchLine('-', "c\n")
  const TOP_DIFF: seq<PatchLine> := [PatchLine('@', ""), REMOVE_A, KEEP_B, REMOVE_C]
  const TOP_OLD: seq<Text> := ["a\n", "b\n", "c\n"]
  const TOP_HUNK := Hunk(1, 4, 2, 0, Undecided, Header(1, 3, 1, 1))
  const TOP_PIECES: seq<Hunk> := [Hunk(1, 3, 1, 0, Undecided, Header(1, 2, 1, 1)), Hunk(2, 4, 1, 0, Undecided, Header(2, 2, 1, 1))]
  const TOP_PATCH: seq<Emitted> := [Emitted(1, 2, 1, 1, [REMOVE_A, KEEP_B]), Emitted(2, 2, 1, 1, [KEEP_B, REMOVE_C])]

  lemma TopCounts()
    ensures Old(TOP_DIFF[1..1]) == New(TOP_DIFF[1..1]) == 0
    ensures Old(TOP_DIFF[1..2]) == 1 && New(TOP_DIFF[1..2]) == 0
    ensures Old(TOP_DIFF[1..3]) == 2 && New(TOP_DIFF[1..3]) == 1 && Groups(TOP_DIFF[1..3]) == 1
    ensures Old(TOP_DIFF[1..4]) == 3 && New(TOP_DIFF[1..4]) == 1 && Groups(TOP_DIFF[1..4]) == 2
    ensures Old(TOP_DIFF[2..4]) == 2 && New(TOP_DIFF[2..4]) == 1 && Groups(TOP_DIFF[2..4]) == 1
  {
    hide Side, Groups, Old, New;
    var plain := TOP_DIFF;
    NoLines(plain, 1);
    NoLines(plain, 2);
    CountOne(plain, 1, 1);
    CountOne(plain, 1, 2);
    CountOne(plain, 1, 3);
    CountOne(plain, 2, 2);
    CountOne(plain, 2, 3);
  }

  lemma TopIsCut()
    ensures StartsByDeleting(TOP_DIFF, TOP_HUNK) && Counted(TOP_DIFF, TOP_HUNK) && CutUp(TOP_DIFF, TOP_HUNK, TOP_PIECES)
  {
    hide Side, Groups, Old, New;
    TopCounts();
    var plain, h, p, q := TOP_DIFF, TOP_HUNK, TOP_PIECES[0], TOP_PIECES[1];
    assert OnlyRemovals(plain, 2, 4) && OnlyRemovals(plain, 1, 4);
    assert HunkLines(plain[1..4]);
    assert PieceOk(plain, h, p) && PieceOk(plain, h, q) && Shares(plain, p, q);
  }

  lemma TopSides()
    ensures OldLines(TOP_DIFF[1..4], false) == TOP_OLD && NewLines(TOP_DIFF[1..4], false) == ["b\n"]
  {
    hide Side;
    var plain := TOP_DIFF;
    SideOfNone(plain, 1);
    SideMore(plain, 1, 1, false, '-');
    SideMore(plain, 1, 2, false, '-');
    SideMore(plain, 1, 3, false, '-');
    SideMore(plain, 1, 1, false, '+');
    SideMore(plain, 1, 2, false, '+');
    SideMore(plain, 1, 3, false, '+');
  }

  lemma SideOfNone(plain: seq<PatchLine>, s: nat)
    requires s <= |plain|
    ensures forall rev, c :: Side(plain[s..s], rev, c) == []
  {
  }

  lemma TopLayout()
    ensures Layout(TOP_DIFF, [TOP_HUNK], false, TOP_OLD, ["b\n"])
  {
    hide Groups, Side;
    TopCounts();
    TopSides();
    var lines := TOP_DIFF[1..4];
    assert HunkLines(lines) && !IsContext(lines[0].first);
    assert TOP_OLD[0..3] == TOP_OLD && ["b\n"][0..1] == ["b\n"];
    assert TOP_OLD[..0] == ["b\n"][..0] && TOP_OLD[3..] == ["b\n"][1..];
    assert HunkOk(TOP_DIFF, false, TOP_OLD, ["b\n"], TOP_HUNK);
  }

  lemma LoneHunkSplit(plain: seq<PatchLine>, h: Hunk, ps: seq<Hunk>, o: seq<Text>, n: seq<Text>)
    requires Layout(plain, [h], false, o, n) && h.splittableInto >= 2 && CutUp(plain, h, ps) && StartsByDeleting(plain, h)
    ensures ChosenFile(plain, ps, false, true, o) == n
    ensures forall c :: !Turns(FragmentsOf(Emission(plain, ps, true, false, 0, 0), false), 0, false, o, c, 0, 0)
  {
    hide *;
    assert [h][0] == h && [h][..0] + ps + [h][1..] == ps;
    OneIsVisible(plain, h);
    SplitKeepsLayout(plain, [h], false, o, n, 0, ps);
    SplitStaysVisible(plain, [h], false, o, n, 0, ps);
    ChoosingAllMakesNew(plain, ps, false, o, n);
    EmittedIsRight(plain, ps, true, false, o, n);
  }

  /** Removing "a" and "c" around "b", split: the two hunks written for all of it overlap, and make no file. */
  lemma DeletionAtTheTop()
    ensures Layout(TOP_DIFF, [TOP_HUNK], false, TOP_OLD, ["b\n"]) && StartsByDeleting(TOP_DIFF, TOP_HUNK)
    ensures CutUp(TOP_DIFF, TOP_HUNK, TOP_PIECES) && ChosenFile(TOP_DIFF, TOP_PIECES, false, true, TOP_OLD) == ["b\n"]
    ensures Emission(TOP_DIFF, TOP_PIECES, true, false, 0, 0) == TOP_PATCH
    ensures forall c :: !Turns(FragmentsOf(TOP_PATCH, false), 0, false, TOP_OLD, c, 0, 0)
  {
    hide Layout, StartsByDeleting, CutUp, ChosenFile, Emission, Turns, FragmentsOf;
    TopLayout();
    TopIsCut();
    TopEmission();
    LoneHunkSplit(TOP_DIFF, TOP_HUNK, TOP_PIECES, TOP_OLD, ["b\n"]);
  }

  lemma OneIsVisible(plain: seq<PatchLine>, h: Hunk)
    ensures Visible(plain, [h], false, true)
  {
  }

  lemma TopEmission()
    ensures Emission(TOP_DIFF, TOP_PIECES, true, false, 0, 0) == TOP_PATCH
  {
    var plain, hs := TOP_DIFF, TOP_PIECES;
    assert RunEnd(hs, true, 0, 0) == 0 && RunEnd(hs, true, 1, 1) == 1;
    hide RunEnd;
    assert plain[1..3] == [REMOVE_A, KEEP_B] && plain[2..4] == [KEEP_B, REMOVE_C];
    EmissionEnds(plain, hs, true, false, 0);
    EmissionStep(plain, hs, true, false, 1, 0);
    EmissionStep(plain, hs, true, false, 0, 0);
  }

  lemma SideOfTwo(x: PatchLine, y: PatchLine, rev: bool, c: char)
    ensures Side([x, y], rev, c) == OnSide(x, rev, c) + OnSide(y, rev, c)
  {
    var all := [x, y];
    assert all[0..0] == [] && all[0..1] == [x] && all[0..2] == all;
    SideMore(all, 0, 0, rev, c);
    SideMore(all, 0, 1, rev, c);
  }

  lemma ContextOfTwo(x: PatchLine, y: PatchLine)
    ensures !IsContext(x.first) ==> Leading([x, y]) == 0
    ensures IsContext(x.first) && !IsContext(y.first) ==> Leading([x, y]) == 1
    ensures !IsContext(y.first) ==> Trailing([x, y]) == 0
    ensures !IsContext(x.first) && IsContext(y.first) ==> Trailing([x, y]) == 1
  {
    assert [x, y][1..] == [y] && [x, y][..1] == [x];
  }

  /** The two hunks, as apply.c reads them. */
  lemma TopFragments()
    ensures var f, g := FragmentOf(TOP_PATCH[0], false), FragmentOf(TOP_PATCH[1], false);
      && Shaped(f) && Shaped(g)
      && OldLines(f.patch, false) == ["a\n", "b\n"] && KeptLines(f.patch, false, false) == ["b\n"] && OldLines(g.patch, false) == ["b\n", "c\n"]
      && f.trailing == 1 && f.oldpos == f.newpos == 1 && g.leading == 1 && g.trailing == 0
  {
    hide Side, Leading, Trailing;
    SideOfTwo(REMOVE_A, KEEP_B, false, '-');
    SideOfTwo(REMOVE_A, KEEP_B, false, '+');
    SideOfTwo(KEEP_B, REMOVE_C, false, '-');
    ContextOfTwo(REMOVE_A, KEEP_B);
    ContextOfTwo(KEEP_B, REMOVE_C);
    assert !IsContext(TOP_PATCH[0].lines[0].first) && !IsContext(TOP_PATCH[1].lines[1].first);
  }

  lemma FirstFits(table: seq<Line>, f: Fragment, opt: Options)
    requires |table| == 3 && (forall i | 0 <= i < 3 :: !table[i].patched) && f == FragmentOf(TOP_PATCH[0], false)
    requires !opt.inReverse && !opt.unidiffZero
    ensures Fits(TOP_OLD, table, OldLines(f.patch, opt.inReverse), 0, MatchBeginning(f, opt), MatchEnd(f, opt))
    ensures ExpectedAt(|table|, f, opt) == 0
  {
    hide Side, Leading, Trailing, FragmentOf;
    TopFragments();
    assert TOP_OLD[0..2] == ["a\n", "b\n"];
  }

  /** The first hunk leaves "b", marked, and "c". */
  lemma FirstLeaves(table: seq<Line>, lines: seq<Text>, table2: seq<Line>)
    requires Exactly(TOP_OLD, table, ["a\n", "b\n"], ["b\n"], 0, lines, table2)
    ensures lines == ["b\n", "c\n"] && |table2| == 2
  {
    assert TOP_OLD[2..] == ["c\n"] && TOP_OLD[..0] == [];
  }

  lemma SecondHasNoPlace(lines: seq<Text>, table: seq<Line>, f: Fragment, opt: Options, at: nat, m: nat, r: seq<Text>)
    requires |lines| == |table| == 2 && table[0].patched && !opt.inReverse && opt.context >= 1
    requires |OldLines(f.patch, false)| == 2 && f.leading == 1 && f.trailing == 0
    ensures !AppliedAt(lines, table, f, opt, at, m, r)
  {
    hide Side, Concat, Spliced;
  }

  lemma TopIsLaidOut()
    ensures Layout(TOP_DIFF, TOP_PIECES, false, TOP_OLD, ["b\n"])
  {
    hide Layout, CutUp;
    TopLayout();
    TopIsCut();
    SplitKeepsLayout(TOP_DIFF, [TOP_HUNK], false, TOP_OLD, ["b\n"], 0, TOP_PIECES);
    assert [TOP_HUNK][..0] + TOP_PIECES + [TOP_HUNK][1..] == TOP_PIECES;
  }

  /** So git apply refuses the patch: the first hunk goes in, and the second one has no place. */
  method TopPatchIsRefused(img: Img, opt: Options) returns (first: bool, second: bool)
    requires img.Valid() && img.lines == TOP_OLD && forall i | 0 <= i < |img.line| :: !img.line[i].patched
    requires !opt.inReverse && !opt.unidiffZero && !opt.allowOverlap && !opt.noAdd && opt.context >= 1
    modifies img
    ensures first && !second
  {
    hide Layout, Emission, FragmentOf, Turns, Fits, ExpectedAt, AppliedAt, Exactly, Side, NearestFit, NoLargerFit, Cut, Kept, Hash, Concat, Leading, Trailing,
      CountsItsLines, ChosenFile, MatchBeginning, MatchEnd, Visible;
    TopEmission();
    TopFragments();
    TopIsLaidOut();
    var out := ReassemblePatch(TOP_DIFF, TOP_PIECES, true, false, TOP_OLD, ["b\n"]);
    var fs := ReadPatch(out, false);
    ghost var table := img.line;
    FirstFits(table, fs[0], opt);
    ghost var at: nat, m: nat, whole: bool;
    first, at, m, whole := ApplyOneFragment(img, fs[0], opt);
    AppliedAsExpected(TOP_OLD, table, fs[0], opt, first, at, whole);
    FirstLeaves(table, img.lines, img.line);
    ghost var lines, marked := img.lines, img.line;
    second, at, m, whole := ApplyOneFragment(img, fs[1], opt);
    if second {
      SecondHasNoPlace(lines, marked, fs[1], opt, at, m, img.lines);
    }
  }
}
