/**
 Applying the hunks of a text patch to an image in apply.c, forwards and in reverse, with
 white space matched exactly.
 */
module Apply {
  import opened Image
  import opened Wrappers

  /** One line of a hunk: its first character, and the text it stands for. */
  datatype PatchLine = PatchLine(first: char, text: Text)

  datatype Fragment = Fragment(leading: nat, trailing: nat, oldpos: nat, oldlines: nat, newpos: nat, newlines: nat,
                               patch: seq<PatchLine>)

  datatype Options = Options(inReverse: bool, unidiffZero: bool, allowOverlap: bool, noAdd: bool, context: nat)

  // ---------- what a hunk says ----------

  function Flip(c: char, inReverse: bool): char {
    if inReverse && c == '-' then '+' else if inReverse && c == '+' then '-' else c
  }

  /** A context line; newer GNU diff writes an empty one without the blank. */
  predicate IsContext(c: char) {
    c == ' ' || c == '\n'
  }

  predicate IsKnown(c: char) {
    IsContext(c) || c == '-' || c == '+'
  }

  /** The lines of the hunk that are on side `c`, which is '-' for the old file and '+' for the new. */
  ghost function Side(patch: seq<PatchLine>, inReverse: bool, c: char): seq<Text> {
    if patch == [] then [] else Side(patch[..|patch| - 1], inReverse, c) + OnSide(patch[|patch| - 1], inReverse, c)
  }

  ghost function OnSide(l: PatchLine, inReverse: bool, c: char): seq<Text> {
    if l.first == '\n' then (if l.text == [] then [] else ["\n"])
    else if l.first == ' ' || Flip(l.first, inReverse) == c then [l.text]
    else []
  }

  lemma SideStep(patch: seq<PatchLine>, k: nat, inReverse: bool, c: char)
    requires k < |patch|
    ensures Side(patch[..k + 1], inReverse, c) == Side(patch[..k], inReverse, c) + OnSide(patch[k], inReverse, c)
  {
    assert patch[..k + 1][..k] == patch[..k];
  }

  /** The lines the hunk expects to find. */
  ghost function OldLines(patch: seq<PatchLine>, inReverse: bool): seq<Text> {
    Side(patch, inReverse, '-')
  }

  /** The lines it leaves behind. */
  ghost function NewLines(patch: seq<PatchLine>, inReverse: bool): seq<Text> {
    Side(patch, inReverse, '+')
  }

  /** A line of context is on both sides, a removed one on the old and an added one on the new; the other way round in reverse. */
  lemma SidesOfLine(l: PatchLine, inReverse: bool)
    ensures l.first == ' ' ==> OldLines([l], inReverse) == NewLines([l], inReverse) == [l.text]
    ensures l.first == '\n' && l.text == "\n" ==> OldLines([l], inReverse) == NewLines([l], inReverse) == [l.text]
    ensures l.first == '-' ==> OldLines([l], inReverse) == (if inReverse then [] else [l.text]) && NewLines([l], inReverse) == if inReverse then [l.text] else []
    ensures l.first == '+' ==> OldLines([l], inReverse) == (if inReverse then [l.text] else []) && NewLines([l], inReverse) == if inReverse then [] else [l.text]
  {
    assert [l][..0] == [];
    assert Side([l], inReverse, '-') == [] + OnSide(l, inReverse, '-') && Side([l], inReverse, '+') == [] + OnSide(l, inReverse, '+');
  }

  lemma {:induction false} ReverseSwapsSides(patch: seq<PatchLine>)
    ensures OldLines(patch, true) == NewLines(patch, false) && NewLines(patch, true) == OldLines(patch, false)
  {
    if patch != [] {
      ReverseSwapsSides(patch[..|patch| - 1]);
    }
  }

  ghost function Leading(patch: seq<PatchLine>): nat {
    if patch == [] || !IsContext(patch[0].first) then 0 else 1 + Leading(patch[1..])
  }

  ghost function Trailing(patch: seq<PatchLine>): nat {
    if patch == [] || !IsContext(patch[|patch| - 1].first) then 0 else 1 + Trailing(patch[..|patch| - 1])
  }

  // ---------- parsing the body of a hunk ----------

  /** How many lines count on each side. */
  ghost function OldCount(patch: seq<PatchLine>): nat {
    if patch == [] then 0
    else OldCount(patch[..|patch| - 1]) + if IsContext(patch[|patch| - 1].first) || patch[|patch| - 1].first == '-' then 1 else 0
  }

  ghost function NewCount(patch: seq<PatchLine>): nat {
    if patch == [] then 0
    else NewCount(patch[..|patch| - 1]) + if IsContext(patch[|patch| - 1].first) || patch[|patch| - 1].first == '+' then 1 else 0
  }

  ghost predicate HasChange(patch: seq<PatchLine>) {
    exists i | 0 <= i < |patch| :: !IsContext(patch[i].first)
  }

  /** The first `n` lines are the body of a hunk with these counts. */
  ghost predicate IsBody(lines: seq<PatchLine>, n: nat, oldlines: nat, newlines: nat) {
    && n <= |lines| && (forall i | 0 <= i < n :: IsKnown(lines[i].first))
    && OldCount(lines[..n]) == oldlines && NewCount(lines[..n]) == newlines
    && HasChange(lines[..n])
  }

  lemma {:induction false} LeadingAppend(patch: seq<PatchLine>, l: PatchLine)
    ensures Leading(patch + [l]) == if HasChange(patch) || !IsContext(l.first) then Leading(patch) else |patch| + 1
    ensures !HasChange(patch) ==> Leading(patch) == |patch|
  {
    if patch != [] {
      assert (patch + [l])[1..] == patch[1..] + [l];
      LeadingAppend(patch[1..], l);
      assert HasChange(patch) <==> !IsContext(patch[0].first) || HasChange(patch[1..]) by {
        if HasChange(patch[1..]) {
          var i :| 0 <= i < |patch[1..]| && !IsContext(patch[1..][i].first);
          assert !IsContext(patch[i + 1].first);
        }
        if HasChange(patch) && IsContext(patch[0].first) {
          var i :| 0 <= i < |patch| && !IsContext(patch[i].first);
          assert !IsContext(patch[1..][i - 1].first);
        }
      }
    } else {
      assert ([] + [l])[1..] == [];
    }
  }

  /** Each further known line counts on at least one side. */
  lemma {:induction false} CountsGrow(lines: seq<PatchLine>, m: nat, n: nat)
    requires m <= n <= |lines| && forall i | m <= i < n :: IsKnown(lines[i].first)
    ensures OldCount(lines[..m]) <= OldCount(lines[..n]) && NewCount(lines[..m]) <= NewCount(lines[..n])
    ensures m < n ==> OldCount(lines[..m]) + NewCount(lines[..m]) < OldCount(lines[..n]) + NewCount(lines[..n])
  {
    if m < n {
      assert lines[..n][..n - 1] == lines[..n - 1];
      CountsGrow(lines, m, n - 1);
    }
  }

  /** The line loop of parse_fragment: succeeds exactly when the lines begin with the body the header announces. */
  method ParseBody(lines: seq<PatchLine>, oldlines: nat, newlines: nat)
    returns (ok: bool, n: nat, leading: nat, trailing: nat)
    ensures ok <==> exists k: nat :: IsBody(lines, k, oldlines, newlines)
    ensures ok ==> IsBody(lines, n, oldlines, newlines)
    ensures ok ==> leading == Leading(lines[..n]) && trailing == Trailing(lines[..n])
  {
    hide OldCount, NewCount, Leading, Trailing, HasChange;
    NoCount(lines);
    var oldLeft, newLeft := oldlines as int, newlines as int;
    var added, deleted := 0, 0;
    n, leading, trailing := 0, 0, 0;
    while n < |lines| && !(oldLeft == 0 && newLeft == 0)
      invariant n <= |lines| && forall i | 0 <= i < n :: IsKnown(lines[i].first)
      invariant oldLeft == oldlines - OldCount(lines[..n]) && newLeft == newlines - NewCount(lines[..n])
      invariant added >= 0 && deleted >= 0 && (added + deleted > 0 <==> HasChange(lines[..n]))
      invariant leading == Leading(lines[..n]) && trailing == Trailing(lines[..n])
      invariant forall k | 0 <= k < n :: !(OldCount(lines[..k]) == oldlines && NewCount(lines[..k]) == newlines)
    {
      var first := lines[n].first;
      CountStep(lines, n);
      if !IsKnown(first) {
        NoBodyBeyond(lines, n, oldlines, newlines);
        return false, n, leading, trailing;
      }
      if IsContext(first) {
        oldLeft, newLeft := oldLeft - 1, newLeft - 1;
        if deleted == 0 && added == 0 {
          leading := leading + 1;
        }
        trailing := trailing + 1;
      } else if first == '-' {
        deleted, oldLeft, trailing := deleted + 1, oldLeft - 1, 0;
      } else {
        added, newLeft, trailing := added + 1, newLeft - 1, 0;
      }
      n := n + 1;
    }
    ok := oldLeft == 0 && newLeft == 0 && (deleted != 0 || added != 0);
    OnlyBody(lines, n, oldlines, newlines);
    assert ok <==> IsBody(lines, n, oldlines, newlines);
  }

  lemma NoCount(lines: seq<PatchLine>)
    ensures OldCount(lines[..0]) == NewCount(lines[..0]) == Leading(lines[..0]) == Trailing(lines[..0]) == 0
    ensures !HasChange(lines[..0])
  {
  }

  /** What one more line does to the counts. */
  lemma CountStep(lines: seq<PatchLine>, n: nat)
    requires n < |lines|
    ensures var c, before, after := lines[n].first, lines[..n], lines[..n + 1];
      && OldCount(after) == OldCount(before) + (if IsContext(c) || c == '-' then 1 else 0)
      && NewCount(after) == NewCount(before) + (if IsContext(c) || c == '+' then 1 else 0)
      && Leading(after) == (if !HasChange(before) && IsContext(c) then Leading(before) + 1 else Leading(before))
      && Trailing(after) == (if IsContext(c) then Trailing(before) + 1 else 0)
      && (HasChange(after) <==> HasChange(before) || !IsContext(c))
  {
    assert lines[..n + 1][..n] == lines[..n] && lines[..n + 1] == lines[..n] + [lines[n]];
    LeadingAppend(lines[..n], lines[n]);
    HasChangeAppend(lines[..n], lines[n]);
  }

  lemma HasChangeAppend(patch: seq<PatchLine>, l: PatchLine)
    ensures HasChange(patch + [l]) <==> HasChange(patch) || !IsContext(l.first)
  {
    var all := patch + [l];
    if HasChange(patch) {
      var i :| 0 <= i < |patch| && !IsContext(patch[i].first);
      assert !IsContext(all[i].first);
    }
    assert all[|patch|] == l;
  }

  lemma NoBodyBeyond(lines: seq<PatchLine>, n: nat, oldlines: nat, newlines: nat)
    requires n < |lines| && !IsKnown(lines[n].first)
    requires forall k | 0 <= k < n :: !(OldCount(lines[..k]) == oldlines && NewCount(lines[..k]) == newlines)
    requires !(OldCount(lines[..n]) == oldlines && NewCount(lines[..n]) == newlines)
    ensures !exists k: nat :: IsBody(lines, k, oldlines, newlines)
  {
  }

  /** At most one prefix has the announced counts. */
  lemma OnlyBody(lines: seq<PatchLine>, n: nat, oldlines: nat, newlines: nat)
    requires n <= |lines| && forall i | 0 <= i < n :: IsKnown(lines[i].first)
    requires forall k | 0 <= k < n :: !(OldCount(lines[..k]) == oldlines && NewCount(lines[..k]) == newlines)
    requires n == |lines| || (OldCount(lines[..n]) == oldlines && NewCount(lines[..n]) == newlines)
    ensures forall k: nat | IsBody(lines, k, oldlines, newlines) :: k == n
  {
    forall k: nat | IsBody(lines, k, oldlines, newlines) ensures k == n {
      if k > n {
        CountsGrow(lines, n, k);
      }
    }
  }

  // ---------- a hunk as two images ----------

  /** The lines that remain on the new side when --no-add drops the additions. */
  ghost function KeptLines(patch: seq<PatchLine>, inReverse: bool, noAdd: bool): seq<Text> {
    Side(patch, inReverse, if noAdd then ' ' else '+')
  }

  /** The first loop of apply_one_fragment. */
  method BuildImages(patch: seq<PatchLine>, inReverse: bool, noAdd: bool) returns (ok: bool, pre: Img, post: Img)
    ensures fresh(pre) && fresh(post) && pre != post
    ensures ok <==> forall i | 0 <= i < |patch| :: IsKnown(patch[i].first) || patch[i].first in {'@', '\\'}
    ensures ok ==> pre.Valid() && pre.lines == OldLines(patch, inReverse)
    ensures ok ==> post.Valid() && post.lines == KeptLines(patch, inReverse, noAdd)
  {
    hide TableOk, Hash, Concat, Side;
    ConcatNone();
    SideNone(patch, inReverse);
    pre := new Img();
    post := new Img();
    var oldText: Text, newText: Text := [], [];
    for k := 0 to |patch|
      invariant fresh(pre) && fresh(post) && pre != post && pre.Tabled() && post.Tabled()
      invariant forall i | 0 <= i < k :: IsKnown(patch[i].first) || patch[i].first in {'@', '\\'}
      invariant pre.lines == OldLines(patch[..k], inReverse) && oldText == Concat(pre.lines)
      invariant post.lines == KeptLines(patch[..k], inReverse, noAdd) && newText == Concat(post.lines)
    {
      var text := patch[k].text;
      var first := Flip(patch[k].first, inReverse);
      SideStep(patch, k, inReverse, '-');
      SideStep(patch, k, inReverse, if noAdd then ' ' else '+');
      ghost var line := if first == '\n' then "\n" else text;
      ConcatMore(pre.lines, line);
      ConcatMore(post.lines, line);
      if first == '\n' {
        if text != [] {
          oldText, newText := oldText + "\n", newText + "\n";
          pre.AddLine("\n", true);
          post.AddLine("\n", true);
        }
      } else if first == ' ' || first == '-' || first == '+' {
        if first != '+' {
          oldText := oldText + text;
          pre.AddLine(text, first == ' ');
        }
        if first == ' ' || (first == '+' && !noAdd) {
          newText := newText + text;
          post.AddLine(text, first == ' ');
        }
      } else if first != '@' && first != '\\' {
        return false, pre, post;
      }
    }
    assert patch[..|patch|] == patch;
    pre.buf, post.buf := oldText, newText;
    ok := true;
  }

  lemma SideNone(patch: seq<PatchLine>, inReverse: bool)
    ensures forall c :: Side(patch[..0], inReverse, c) == []
  {
  }

  lemma ConcatMore(lines: seq<Text>, line: Text)
    ensures Concat(lines + [line]) == Concat(lines) + line
  {
  }

  // ---------- the splice ----------

  ghost function Spliced<T>(s: seq<T>, at: nat, n: nat, insert: seq<T>): seq<T>
    requires at + n <= |s|
  {
    s[..at] + insert + s[at + n..]
  }

  function Marked(line: seq<Line>, keep: bool): (r: seq<Line>)
    ensures |r| == |line|
  {
    if keep then line else seq(|line|, i requires 0 <= i < |line| => line[i].(patched := true))
  }

  lemma SplicedTable(line: seq<Line>, lines: seq<Text>, at: nat, n: nat, post: seq<Line>, postLines: seq<Text>, keep: bool)
    requires TableOk(line, lines) && TableOk(post, postLines) && at + n <= |line|
    ensures TableOk(Spliced(line, at, n, Marked(post, keep)), Spliced(lines, at, n, postLines))
  {
    hide Hash;
  }

  lemma SplicedBytes(lines: seq<Text>, at: nat, n: nat, insert: seq<Text>)
    requires at + n <= |lines|
    ensures Concat(lines[..at]) + Concat(lines[at..at + n]) <= Concat(lines)
    ensures var a, r := |Concat(lines[..at])|, |Concat(lines[at..at + n])|;
      Concat(Spliced(lines, at, n, insert)) == Concat(lines)[..a] + Concat(insert) + Concat(lines)[a + r..]
  {
    hide Concat;
    ConcatSplit(lines, at);
    ConcatSplit(lines[at..], n);
    assert lines[at..][..n] == lines[at..at + n] && lines[at..][n..] == lines[at + n..];
    assert Concat(lines) == Concat(lines[..at]) + Concat(lines[at..at + n]) + Concat(lines[at + n..]);
    ConcatAppend(lines[..at] + insert, lines[at + n..]);
    ConcatAppend(lines[..at], insert);
  }

  lemma ConcatTail(lines: seq<Text>, from: nat, to: nat)
    requires from <= to < |lines|
    ensures Concat(lines[from..to + 1]) == Concat(lines[from..to]) + lines[to]
  {
    assert lines[from..to + 1] == lines[from..to] + [lines[to]];
    ConcatMore(lines[from..to], lines[to]);
  }

  /** update_image. */
  method UpdateImage(img: Img, at: nat, pre: Img, post: Img, allowOverlap: bool)
    requires img.Valid() && post.Valid() && img != pre && img != post && at + |pre.line| <= |img.line|
    modifies img
    ensures img.Valid()
    ensures img.lines == Spliced(old(img.lines), at, |pre.line|, post.lines)
    ensures img.line == Spliced(old(img.line), at, |pre.line|, Marked(post.line, allowOverlap))
  {
    hide Hash, Concat, Marked;
    var limit := |pre.line|;
    var appliedAt := img.OffsetOf(at);
    var removeCount := RemoveCount(img, at, limit);
    SplicedTable(img.line, img.lines, at, limit, post.line, post.lines, allowOverlap);
    SplicedBytes(img.lines, at, limit, post.lines);
    img.buf := img.buf[..appliedAt] + post.buf + img.buf[appliedAt + removeCount..];
    img.line := img.line[..at] + Marked(post.line, allowOverlap) + img.line[at + limit..];
    img.lines := Spliced(img.lines, at, limit, post.lines);
  }

  method RemoveCount(img: Img, at: nat, n: nat) returns (count: nat)
    requires img.Tabled() && at + n <= |img.line|
    ensures count == |Concat(img.lines[at..at + n])|
  {
    hide Hash;
    count := 0;
    for i := 0 to n
      invariant count == |Concat(img.lines[at..at + i])|
    {
      ConcatTail(img.lines, at, at + i);
      count := count + img.line[at + i].len;
    }
  }

  // ---------- one hunk ----------

  /** What parse_fragment leaves behind for a hunk that was not recounted. */
  ghost predicate Shaped(f: Fragment) {
    && (forall i | 0 <= i < |f.patch| :: IsKnown(f.patch[i].first) && (f.patch[i].first == '\n' ==> f.patch[i].text == "\n"))
    && HasChange(f.patch) && f.leading == Leading(f.patch) && f.trailing == Trailing(f.patch)
  }

  lemma {:induction false} SideAppend(x: seq<PatchLine>, y: seq<PatchLine>, inReverse: bool, c: char)
    ensures Side(x + y, inReverse, c) == Side(x, inReverse, c) + Side(y, inReverse, c)
  {
    if y == [] {
      assert x + y == x;
    } else {
      assert (x + y)[..|x + y| - 1] == x + y[..|y| - 1];
      SideAppend(x, y[..|y| - 1], inReverse, c);
    }
  }

  /** Context lines are one for one on both sides. */
  lemma {:induction false} ContextSide(x: seq<PatchLine>, inReverse: bool, c: char, d: char)
    requires forall i | 0 <= i < |x| :: IsContext(x[i].first) && (x[i].first == '\n' ==> x[i].text == "\n")
    ensures |Side(x, inReverse, c)| == |x| && Side(x, inReverse, c) == Side(x, inReverse, d)
  {
    if x != [] {
      ContextSide(x[..|x| - 1], inReverse, c, d);
    }
  }

  lemma {:induction false} LeadingIsContext(patch: seq<PatchLine>)
    ensures Leading(patch) <= |patch| && forall i | 0 <= i < Leading(patch) :: IsContext(patch[i].first)
    ensures Leading(patch) < |patch| ==> !IsContext(patch[Leading(patch)].first)
  {
    if patch != [] && IsContext(patch[0].first) {
      LeadingIsContext(patch[1..]);
    }
  }

  lemma {:induction false} TrailingIsContext(patch: seq<PatchLine>)
    ensures Trailing(patch) <= |patch| && forall i | |patch| - Trailing(patch) <= i < |patch| :: IsContext(patch[i].first)
  {
    if patch != [] && IsContext(patch[|patch| - 1].first) {
      TrailingIsContext(patch[..|patch| - 1]);
    }
  }

  /** The leading and trailing context of a hunk is the same, line for line, in what it expects and in what it leaves. */
  lemma ContextOnBothSides(f: Fragment, inReverse: bool, c: char, d: char)
    requires Shaped(f)
    ensures |Side(f.patch, inReverse, c)| >= f.leading + f.trailing && |Side(f.patch, inReverse, d)| >= f.leading + f.trailing
    ensures var x, y := Side(f.patch, inReverse, c), Side(f.patch, inReverse, d);
      x[..f.leading] == y[..f.leading] && x[|x| - f.trailing..] == y[|y| - f.trailing..]
  {
    hide Side, Leading, Trailing, HasChange;
    var p, l, t := f.patch, f.leading, f.trailing;
    Parts(f);
    var head, mid, tail := p[..l], p[l..|p| - t], p[|p| - t..];
    ContextSide(head, inReverse, c, d);
    ContextSide(tail, inReverse, c, d);
    SideOfThree(head, mid, tail, inReverse, c);
    SideOfThree(head, mid, tail, inReverse, d);
    SameEnds(Side(head, inReverse, c), Side(mid, inReverse, c), Side(mid, inReverse, d), Side(tail, inReverse, c));
  }

  /** A hunk is its leading context, a middle part, and its trailing context. */
  lemma Parts(f: Fragment)
    requires Shaped(f)
    ensures f.leading + f.trailing <= |f.patch|
    ensures forall i | 0 <= i < f.leading :: IsContext(f.patch[..f.leading][i].first)
    ensures var tail := f.patch[|f.patch| - f.trailing..]; forall i | 0 <= i < f.trailing :: IsContext(tail[i].first)
    ensures f.patch == f.patch[..f.leading] + f.patch[f.leading..|f.patch| - f.trailing] + f.patch[|f.patch| - f.trailing..]
  {
    hide Leading, Trailing;
    LeadingIsContext(f.patch);
    TrailingIsContext(f.patch);
    var i :| 0 <= i < |f.patch| && !IsContext(f.patch[i].first);
  }

  lemma SideOfThree(a: seq<PatchLine>, b: seq<PatchLine>, e: seq<PatchLine>, inReverse: bool, c: char)
    ensures Side(a + b + e, inReverse, c) == Side(a, inReverse, c) + Side(b, inReverse, c) + Side(e, inReverse, c)
  {
    SideAppend(a + b, e, inReverse, c);
    SideAppend(a, b, inReverse, c);
  }

  lemma SameEnds(a: seq<Text>, b: seq<Text>, c: seq<Text>, d: seq<Text>)
    ensures (a + b + d)[..|a|] == (a + c + d)[..|a|]
    ensures (a + b + d)[|a + b|..] == (a + c + d)[|a + c|..]
  {
  }

  /** The expected lines stand at `k`, untouched by an earlier hunk. */
  ghost predicate Fits(o: seq<Text>, table: seq<Line>, expected: seq<Text>, k: nat, atBeginning: bool, atEnd: bool) {
    && k + |expected| <= |o| == |table| && o[k..k + |expected|] == expected
    && (forall i | k <= i < k + |expected| :: !table[i].patched)
    && (atBeginning ==> k == 0) && (atEnd ==> k + |expected| == |o|)
  }

  /** How much of `context` lines -C always keeps. */
  function Kept(context: nat, limit: nat): nat {
    if context < limit then context else limit
  }

  function Larger(x: nat, y: nat): nat {
    if x < y then y else x
  }

  /** What is left of lines with that much context when no more than `m` lines of it are kept at either end. */
  function Cut(lines: seq<Text>, leading: nat, trailing: nat, m: nat): seq<Text> {
    if leading + trailing > |lines| then lines
    else lines[leading - Kept(leading, m)..|lines| - (trailing - Kept(trailing, m))]
  }

  ghost predicate Trimmed(s: seq<Text>, l: nat, t: nat, r: seq<Text>) {
    l + t <= |s| && r == s[l..|s| - t]
  }

  /** `n` is `o` with the lines `was`, found at line `at`, replaced by `now`. */
  ghost predicate Replaced(o: seq<Text>, table: seq<Line>, at: nat, was: seq<Text>, now: seq<Text>, n: seq<Text>) {
    && at + |was| <= |o| == |table| && (forall i | at <= i < at + |was| :: !table[i].patched)
    && Concat(was) <= Concat(o[at..])
    && n == Spliced(o, at, |was|, now)
  }

  /** `n` is `o` with the hunk applied at line `at`, keeping at most `m` lines of context at either end, and no fewer than -C asks for. */
  ghost predicate AppliedAt(o: seq<Text>, table: seq<Line>, f: Fragment, opt: Options, at: nat, m: nat, n: seq<Text>) {
    && Kept(f.leading, m) >= Kept(f.leading, opt.context) && Kept(f.trailing, m) >= Kept(f.trailing, opt.context)
    && Replaced(o, table, at, Cut(OldLines(f.patch, opt.inReverse), f.leading, f.trailing, m),
                Cut(KeptLines(f.patch, opt.inReverse, opt.noAdd), f.leading, f.trailing, m), n)
  }

  /** `n` is `o` with the whole hunk applied at `at`, and the table entries after it have moved along. */
  ghost predicate Exactly(o: seq<Text>, table: seq<Line>, was: seq<Text>, now: seq<Text>, at: nat, n: seq<Text>, newTable: seq<Line>) {
    && at + |was| <= |o| == |table| && n == Spliced(o, at, |was|, now)
    && |newTable| == |table| - |was| + |now|
    && newTable[at + |now|..] == table[at + |was|..]
  }

  function MatchBeginning(f: Fragment, opt: Options): bool {
    f.oldpos == 0 || (f.oldpos == 1 && !opt.unidiffZero)
  }

  function MatchEnd(f: Fragment, opt: Options): bool {
    !opt.unidiffZero && f.trailing == 0
  }

  /** The line that the header gives, as an int. */
  function Position(f: Fragment): int {
    Wrapped(if f.newpos > 0 then f.newpos - 1 else 0)
  }

  lemma PositionFits(f: Fragment)
    ensures Position(f) == (if f.newpos > 0 then f.newpos - 1 else 0) <==> f.newpos <= INT_MAX + 1
  {
  }

  lemma FitIsMatch(img: Img, pre: Img, k: nat, atBeginning: bool, atEnd: bool, overlap: bool)
    requires img.Valid() && pre.Valid() && Fits(img.lines, img.line, pre.lines, k, atBeginning, atEnd)
    ensures MatchAt(img, pre, k, atBeginning && !(overlap && atEnd && |img.line| != |pre.line|), atEnd)
  {
    hide Concat, Hash;
    EqualLinesMatch(img, pre, k, atBeginning, atEnd);
  }

  lemma MatchBytes(img: Img, pre: Img, k: nat, atBeginning: bool, atEnd: bool)
    requires img.Valid() && pre.Valid() && MatchAt(img, pre, k, atBeginning, atEnd)
    ensures k + |pre.lines| <= |img.lines| && Concat(pre.lines) <= Concat(img.lines[k..])
    ensures forall i | k <= i < k + |pre.lines| :: !img.line[i].patched
  {
    hide Concat, Hash;
    ConcatSplit(img.lines, k);
    forall i | k <= i < k + |pre.lines| ensures !img.line[i].patched {
      assert EntryMatches(img.line, pre.line, k, i - k);
    }
  }

  /** Drops a context line from the longer side, or from both. */
  method DropContext(pre: Img, post: Img, leading: nat, trailing: nat) returns (dl: nat, dt: nat)
    requires pre.Valid() && post.Valid() && pre != post && leading + trailing > 0
    requires leading + trailing <= |pre.lines| && leading + trailing <= |post.lines|
    modifies pre, post
    ensures pre.Valid() && post.Valid()
    ensures dl == (if leading >= trailing then 1 else 0) && dt == (if trailing >= leading && trailing > 0 then 1 else 0)
    ensures Trimmed(old(pre.lines), dl, dt, pre.lines) && Trimmed(old(post.lines), dl, dt, post.lines)
  {
    hide Concat, Hash, TableOk;
    dl, dt := 0, 0;
    if leading >= trailing {
      pre.RemoveFirstLine();
      post.RemoveFirstLine();
      dl := 1;
    }
    if trailing > leading - dl {
      pre.RemoveLastLine();
      post.RemoveLastLine();
      dt := 1;
    }
  }

  lemma SliceOfSlice<T>(s: seq<T>, a: nat, b: nat, c: nat, d: nat)
    requires c <= d && a + d <= b <= |s|
    ensures s[a..b][c..d] == s[a + c..a + d]
  {
    var x, y := s[a..b][c..d], s[a + c..a + d];
    assert forall i | 0 <= i < |x| :: x[i] == s[a..b][c + i] == y[i];
  }

  /** If `lines` stand anywhere as asked for, `applied` is a place, and none of them is nearer to line `pos`. */
  ghost predicate NearestFit(o: seq<Text>, table: seq<Line>, lines: seq<Text>, pos: int, begin: bool, end: bool, applied: int) {
    forall k: nat | Fits(o, table, lines, k, begin, end) :: applied >= 0 && !Nearer(StartLine(pos, |table|, |lines|, begin, end), k, applied)
  }

  /** Nor do they with more than `m` lines of context, wherever that may be. */
  ghost predicate NoLargerFit(o: seq<Text>, table: seq<Line>, lines: seq<Text>, leading: nat, trailing: nat, m: nat) {
    forall m2: nat, k: nat | m < m2 <= Larger(leading, trailing) :: !Fits(o, table, Cut(lines, leading, trailing, m2), k, false, false)
  }

  /**
   The search loop of apply_one_fragment, which drops context lines as far as -C allows, but no more than it must: at most `m` are
   kept at either end. `whole` says that it ended with the first attempt, which minds the ends of the file.
   */
  method Locate(img: Img, pre: Img, post: Img, leading0: nat, trailing0: nat, position: int,
                matchBeginning: bool, matchEnd: bool, opt: Options)
    returns (applied: int, ghost m: nat, ghost whole: bool)
    requires img.Valid() && pre.Valid() && post.Valid() && img != pre && img != post && pre != post
    requires leading0 + trailing0 <= |pre.lines| && leading0 + trailing0 <= |post.lines|
    modifies pre, post
    ensures pre.Valid() && post.Valid() && m <= Larger(leading0, trailing0) && (m < Larger(leading0, trailing0) ==> opt.context <= m && !whole)
    ensures pre.lines == Cut(old(pre.lines), leading0, trailing0, m) && post.lines == Cut(old(post.lines), leading0, trailing0, m)
    ensures applied >= 0 ==> exists b, e :: MatchAt(img, pre, applied, b, e) && (whole ==>
      e == matchEnd && b == (matchBeginning && !(opt.allowOverlap && matchEnd && |img.line| != |pre.line|)))
    ensures !whole ==> Larger(leading0, trailing0) > opt.context
    ensures applied < 0 ==> Kept(leading0, m) <= opt.context && Kept(trailing0, m) <= opt.context
    ensures NearestFit(img.lines, img.line, old(pre.lines), position, matchBeginning, matchEnd, if whole then applied else -1)
    ensures !whole ==> NearestFit(img.lines, img.line, pre.lines, position - (leading0 - Kept(leading0, m)), false, false, applied)
    ensures NoLargerFit(img.lines, img.line, old(pre.lines), leading0, trailing0, m)
  {
    hide Concat, Hash, MatchAt, TableOk, NearestFit, NoLargerFit, Cut, Tried, Kept, StartLine;
    ghost var was, now, o, table := pre.lines, post.lines, img.lines, img.line;
    ghost var aim := Aim(leading0, trailing0, position, matchBeginning, matchEnd, opt.context);
    var leading: nat, trailing: nat, pos := leading0, trailing0, position;
    var begin, end := matchBeginning, matchEnd;
    m, whole := Larger(leading0, trailing0), true;
    CutNothing(was, leading0, trailing0);
    CutNothing(now, leading0, trailing0);
    applied := Attempt(img, pre, pos, begin, end, opt.allowOverlap);
    FirstTry(aim, o, table, was, applied);
    while applied < 0 && !(leading <= opt.context && trailing <= opt.context)
      invariant pre.Valid() && post.Valid() && img.Valid() && img.lines == o && img.line == table
      invariant post.lines == Cut(now, leading0, trailing0, m) && Tried(aim, o, table, was, leading, trailing, pos, begin, end, m, whole, applied)
      invariant pre.lines == Cut(was, leading0, trailing0, m)
      invariant applied >= 0 ==> MatchAt(img, pre, applied, begin && !(opt.allowOverlap && end && |img.line| != |pre.line|), end)
      decreases leading + trailing, begin || end
    {
      if begin || end {
        ghost var begin0, end0 := begin, end;
        begin, end := false, false;
        applied := Attempt(img, pre, pos, begin, end, opt.allowOverlap);
        TriedWhole(aim, o, table, was, leading, trailing, pos, begin0, end0, m, whole, applied);
        whole := false;
      } else {
        TriedBounds(aim, o, table, was, leading, trailing, pos, begin, end, m, whole);
        var dl, dt := KeepLess(pre, post, leading, trailing, was, now, aim, m);
        pos, leading, trailing := pos - dl, leading - dl, trailing - dt;
        applied := Attempt(img, pre, pos, begin, end, opt.allowOverlap);
        TriedLess(aim, o, table, was, leading + dl, trailing + dt, pos + dl, m, whole, leading, trailing, pos, applied);
        whole, m := false, m - 1;
      }
    }
    TriedMeans(aim, o, table, was, leading, trailing, pos, begin, end, m, whole, applied);
  }

  /** One search for the lines. */
  method Attempt(img: Img, pre: Img, pos: int, begin: bool, end: bool, overlap: bool) returns (applied: int)
    requires img.Valid() && pre.Valid()
    ensures applied >= -1 && NearestFit(img.lines, img.line, pre.lines, pos, begin, end, applied)
    ensures applied >= 0 ==> MatchAt(img, pre, applied, begin && !(overlap && end && |img.line| != |pre.line|), end)
  {
    hide Concat, Hash, MatchAt, NearestFit, StartLine;
    applied := FindPos(img, pre, pos, begin, end, overlap);
    Found(img, pre, pos, begin, end, overlap, applied);
  }

  /** Both images keep a line of context less. */
  method KeepLess(pre: Img, post: Img, leading: nat, trailing: nat, ghost was: seq<Text>, ghost now: seq<Text>, ghost aim: Aim, ghost m: nat)
    returns (dl: nat, dt: nat)
    requires pre.Valid() && post.Valid() && pre != post && leading + trailing > 0 && 0 < m <= Larger(aim.leading, aim.trailing)
    requires aim.leading + aim.trailing <= |was| && aim.leading + aim.trailing <= |now|
    requires leading == Kept(aim.leading, m) && trailing == Kept(aim.trailing, m)
    requires pre.lines == Cut(was, aim.leading, aim.trailing, m) && post.lines == Cut(now, aim.leading, aim.trailing, m)
    modifies pre, post
    ensures dl + dt > 0 && pre.Valid() && post.Valid() && leading - dl == Kept(aim.leading, m - 1) && trailing - dt == Kept(aim.trailing, m - 1)
    ensures pre.lines == Cut(was, aim.leading, aim.trailing, m - 1) && post.lines == Cut(now, aim.leading, aim.trailing, m - 1)
  {
    hide Concat, Hash, TableOk, Cut, Trimmed, Kept;
    CutLength(was, aim.leading, aim.trailing, m);
    CutLength(now, aim.leading, aim.trailing, m);
    dl, dt := DropContext(pre, post, leading, trailing);
    CutMore(was, aim.leading, aim.trailing, m, dl, dt, pre.lines);
    CutMore(now, aim.leading, aim.trailing, m, dl, dt, post.lines);
  }

  /** What a hunk's search starts from. */
  datatype Aim = Aim(leading: nat, trailing: nat, pos: int, begin: bool, end: bool, context: nat)

  /** The search after an attempt that came to `applied`, keeping `m` lines of context. */
  ghost predicate Tried(aim: Aim, o: seq<Text>, table: seq<Line>, was: seq<Text>, leading: nat, trailing: nat, pos: int, begin: bool, end: bool,
                        m: nat, whole: bool, applied: int)
  {
    && aim.leading + aim.trailing <= |was| && m <= Larger(aim.leading, aim.trailing) && (m < Larger(aim.leading, aim.trailing) ==> aim.context <= m)
    && leading == Kept(aim.leading, m) && trailing == Kept(aim.trailing, m) && pos == aim.pos - (aim.leading - leading)
    && (if whole then begin == aim.begin && end == aim.end && m == Larger(aim.leading, aim.trailing)
        else !begin && !end && Larger(aim.leading, aim.trailing) > aim.context)
    && NearestFit(o, table, was, aim.pos, aim.begin, aim.end, if whole then applied else -1)
    && NearestFit(o, table, Cut(was, aim.leading, aim.trailing, m), pos, begin, end, applied)
    && NoLargerFit(o, table, was, aim.leading, aim.trailing, m)
  }

  lemma TriedMeans(aim: Aim, o: seq<Text>, table: seq<Line>, was: seq<Text>, leading: nat, trailing: nat, pos: int, begin: bool, end: bool,
                   m: nat, whole: bool, applied: int)
    requires Tried(aim, o, table, was, leading, trailing, pos, begin, end, m, whole, applied)
    ensures m <= Larger(aim.leading, aim.trailing) && (m < Larger(aim.leading, aim.trailing) ==> aim.context <= m && !whole)
    ensures leading == Kept(aim.leading, m) && trailing == Kept(aim.trailing, m)
    ensures if whole then begin == aim.begin && end == aim.end else Larger(aim.leading, aim.trailing) > aim.context
    ensures NearestFit(o, table, was, aim.pos, aim.begin, aim.end, if whole then applied else -1)
    ensures !whole ==>
      NearestFit(o, table, Cut(was, aim.leading, aim.trailing, m), aim.pos - (aim.leading - Kept(aim.leading, m)), false, false, applied)
    ensures NoLargerFit(o, table, was, aim.leading, aim.trailing, m)
  {
    hide NearestFit, NoLargerFit, Cut;
  }

  lemma FirstTry(aim: Aim, o: seq<Text>, table: seq<Line>, was: seq<Text>, applied: int)
    requires aim.leading + aim.trailing <= |was| && NearestFit(o, table, was, aim.pos, aim.begin, aim.end, applied)
    ensures Tried(aim, o, table, was, aim.leading, aim.trailing, aim.pos, aim.begin, aim.end, Larger(aim.leading, aim.trailing), true, applied)
  {
    hide NearestFit, Cut, Fits;
    CutNothing(was, aim.leading, aim.trailing);
  }

  /** The second attempt does not mind the ends of the file. */
  lemma TriedWhole(aim: Aim, o: seq<Text>, table: seq<Line>, was: seq<Text>, leading: nat, trailing: nat, pos: int, begin: bool, end: bool,
                   m: nat, whole: bool, applied: int)
    requires Tried(aim, o, table, was, leading, trailing, pos, begin, end, m, whole, -1) && (leading > aim.context || trailing > aim.context)
    requires NearestFit(o, table, Cut(was, aim.leading, aim.trailing, m), pos, false, false, applied)
    ensures Tried(aim, o, table, was, leading, trailing, pos, false, false, m, false, applied)
  {
    hide NearestFit, NoLargerFit, Cut;
  }

  lemma TriedBounds(aim: Aim, o: seq<Text>, table: seq<Line>, was: seq<Text>, leading: nat, trailing: nat, pos: int, begin: bool, end: bool,
                    m: nat, whole: bool)
    requires Tried(aim, o, table, was, leading, trailing, pos, begin, end, m, whole, -1) && (leading > aim.context || trailing > aim.context)
    ensures 0 < m <= Larger(aim.leading, aim.trailing) && aim.leading + aim.trailing <= |was|
    ensures leading == Kept(aim.leading, m) && trailing == Kept(aim.trailing, m)
  {
    hide NearestFit, NoLargerFit, Cut;
  }

  /** The next ones keep a line of context less. */
  lemma TriedLess(aim: Aim, o: seq<Text>, table: seq<Line>, was: seq<Text>, leading: nat, trailing: nat, pos: int, m: nat, whole: bool,
                  leading2: nat, trailing2: nat, pos2: int, applied: int)
    requires Tried(aim, o, table, was, leading, trailing, pos, false, false, m, whole, -1) && (leading > aim.context || trailing > aim.context)
    requires leading2 == Kept(aim.leading, m - 1) && trailing2 == Kept(aim.trailing, m - 1) && pos2 == pos - (leading - leading2)
    requires m > 0 && NearestFit(o, table, Cut(was, aim.leading, aim.trailing, m - 1), pos2, false, false, applied)
    ensures Tried(aim, o, table, was, leading2, trailing2, pos2, false, false, m - 1, false, applied)
  {
    NoneLarger(o, table, was, aim.leading, aim.trailing, m, pos, -1);
    hide NearestFit, NoLargerFit, Cut;
  }

  lemma CutNothing(s: seq<Text>, leading: nat, trailing: nat)
    requires leading + trailing <= |s|
    ensures Cut(s, leading, trailing, Larger(leading, trailing)) == s
  {
  }

  lemma NoneLarger(o: seq<Text>, table: seq<Line>, s: seq<Text>, leading: nat, trailing: nat, m: nat, pos: int, applied: int)
    requires leading + trailing <= |s| && 0 < m && NoLargerFit(o, table, s, leading, trailing, m) && applied < 0
    requires NearestFit(o, table, Cut(s, leading, trailing, m), pos, false, false, applied)
    ensures NoLargerFit(o, table, s, leading, trailing, m - 1)
  {
    hide Fits, Cut, Nearer, StartLine;
    forall m2: nat, k: nat | m - 1 < m2 <= Larger(leading, trailing) ensures !Fits(o, table, Cut(s, leading, trailing, m2), k, false, false) {
    }
  }

  lemma CutLength(s: seq<Text>, leading: nat, trailing: nat, m: nat)
    requires leading + trailing <= |s|
    ensures |Cut(s, leading, trailing, m)| >= Kept(leading, m) + Kept(trailing, m)
  {
  }

  lemma CutMore(s: seq<Text>, leading: nat, trailing: nat, m: nat, dl: nat, dt: nat, r: seq<Text>)
    requires leading + trailing <= |s| && 0 < m <= Larger(leading, trailing)
    requires dl == if Kept(leading, m) >= Kept(trailing, m) then 1 else 0
    requires dt == if Kept(trailing, m) >= Kept(leading, m) && Kept(trailing, m) > 0 then 1 else 0
    requires Trimmed(Cut(s, leading, trailing, m), dl, dt, r)
    ensures r == Cut(s, leading, trailing, m - 1)
    ensures Kept(leading, m - 1) == Kept(leading, m) - dl && Kept(trailing, m - 1) == Kept(trailing, m) - dt
  {
    var l, t := leading - Kept(leading, m), trailing - Kept(trailing, m);
    SliceOfSlice(s, l, |s| - t, dl, |s| - t - l - dt);
  }

  /** What an outcome of find_pos says about the exact places. */
  lemma Found(img: Img, pre: Img, pos: int, begin: bool, end: bool, overlap: bool, applied: int)
    requires img.Valid() && pre.Valid()
    requires var b := begin && !(overlap && end && |img.line| != |pre.line|);
      FirstMatch(img, pre, StartLine(pos, |img.line|, |pre.line|, b, end), b, end, applied)
    ensures NearestFit(img.lines, img.line, pre.lines, pos, begin, end, applied)
  {
    hide Concat, Hash, MatchAt;
    var b := begin && !(overlap && end && |img.line| != |pre.line|);
    forall k: nat | Fits(img.lines, img.line, pre.lines, k, begin, end)
      ensures MatchAt(img, pre, k, b, end)
    {
      FitIsMatch(img, pre, k, begin, end, overlap);
    }
  }

  /**
   apply_one_fragment: where the hunk was applied, and how much context was kept for it. `whole` says that the first
   attempt was the last one; it minds the ends of the file, and keeps all context.
   */
  method ApplyOneFragment(img: Img, f: Fragment, opt: Options) returns (ok: bool, ghost at: nat, ghost m: nat, ghost whole: bool)
    requires img.Valid() && Shaped(f)
    modifies img
    ensures img.Valid()
    ensures !ok ==> unchanged(img)
    ensures ok ==> AppliedAt(old(img.lines), old(img.line), f, opt, at, m, img.lines)
    ensures m <= Larger(f.leading, f.trailing) && (whole ==> m == Larger(f.leading, f.trailing))
    // if the whole hunk fits anywhere, it is applied whole, and nowhere further away
    ensures NearestFit(old(img.lines), old(img.line), OldLines(f.patch, opt.inReverse), Position(f), MatchBeginning(f, opt), MatchEnd(f, opt),
                       if whole && ok then at else -1)
    // otherwise no context is dropped that stands anywhere in the file, and it is applied nowhere further away with what is left
    ensures NoLargerFit(old(img.lines), old(img.line), OldLines(f.patch, opt.inReverse), f.leading, f.trailing, m)
    ensures !whole ==> NearestFit(old(img.lines), old(img.line), Cut(OldLines(f.patch, opt.inReverse), f.leading, f.trailing, m),
                                  Position(f) - (f.leading - Kept(f.leading, m)), false, false, if ok then at else -1)
    // it gives up only at the limit of -C, and minds the ends of the file as long as it may not drop any context
    ensures !ok ==> Kept(f.leading, m) <= opt.context && Kept(f.trailing, m) <= opt.context
    ensures f.leading <= opt.context && f.trailing <= opt.context ==> whole
    ensures ok && whole && f.trailing == 0 && !opt.unidiffZero ==> at + |OldLines(f.patch, opt.inReverse)| == |old(img.lines)|
    ensures ok && whole && (f.oldpos == 0 || (f.oldpos == 1 && !opt.unidiffZero)) ==>
      at == 0 || (opt.allowOverlap && f.trailing == 0 && !opt.unidiffZero)
    ensures ok && m == Larger(f.leading, f.trailing) ==>
      Exactly(old(img.lines), old(img.line), OldLines(f.patch, opt.inReverse), KeptLines(f.patch, opt.inReverse, opt.noAdd),
              at, img.lines, img.line)
    // what it put in is not matched again
    ensures ok && m == Larger(f.leading, f.trailing) && !opt.allowOverlap ==>
      AllPatched(img.line, at, |KeptLines(f.patch, opt.inReverse, opt.noAdd)|)
  {
    hide Concat, Hash, MatchAt, TableOk, Side, Leading, Trailing, HasChange, Marked, Fits, Spliced, Cut, StartLine, AppliedAt, Exactly, Nearer,
      NearestFit, NoLargerFit, Kept, AllPatched, MatchBeginning, MatchEnd, Position;
    at := 0;
    var built, pre, post := BuildImages(f.patch, opt.inReverse, opt.noAdd);
    ContextOnBothSides(f, opt.inReverse, '-', if opt.noAdd then ' ' else '+');
    ghost var o, table, was, now := img.lines, img.line, pre.lines, post.lines;
    CutNothing(was, f.leading, f.trailing);
    CutNothing(now, f.leading, f.trailing);
    var applied;
    applied, m, whole := Locate(img, pre, post, f.leading, f.trailing, Position(f), MatchBeginning(f, opt), MatchEnd(f, opt), opt);
    Lengths(img);
    KeptBounds(f.leading, opt.context);
    KeptBounds(f.trailing, opt.context);
    KeptBounds(f.leading, m);
    KeptBounds(f.trailing, m);
    if applied < 0 {
      StillNone(o, table, was, Position(f), MatchBeginning(f, opt), MatchEnd(f, opt), applied);
      StillNone(o, table, pre.lines, Position(f) - (f.leading - Kept(f.leading, m)), false, false, applied);
      return false, at, m, whole;
    }
    at := applied;
    Lengths(pre);
    ghost var b, e :| MatchAt(img, pre, applied, b, e) && (whole ==>
      e == MatchEnd(f, opt) && b == (MatchBeginning(f, opt) && !(opt.allowOverlap && MatchEnd(f, opt) && |img.line| != |pre.line|)));
    MatchEnds(img, pre, applied, b, e);
    Boundaries(f, opt);
    MatchBytes(img, pre, applied, b, e);
    PutIn(img, pre, post, f, opt, applied, m);
    ok := true;
  }

  ghost predicate AllPatched(table: seq<Line>, at: nat, n: nat) {
    at + n <= |table| && forall i | at <= i < at + n :: table[i].patched
  }

  /** Puts the lines left into the place found. */
  method PutIn(img: Img, pre: Img, post: Img, f: Fragment, opt: Options, at: nat, ghost m: nat)
    requires img.Valid() && pre.Valid() && post.Valid() && img != pre && img != post && Shaped(f)
    requires pre.lines == Cut(OldLines(f.patch, opt.inReverse), f.leading, f.trailing, m)
    requires post.lines == Cut(KeptLines(f.patch, opt.inReverse, opt.noAdd), f.leading, f.trailing, m)
    requires Kept(f.leading, m) >= Kept(f.leading, opt.context) && Kept(f.trailing, m) >= Kept(f.trailing, opt.context)
    requires at + |pre.lines| <= |img.lines| && Concat(pre.lines) <= Concat(img.lines[at..])
    requires forall i | at <= i < at + |pre.lines| :: i < |img.line| && !img.line[i].patched
    modifies img
    ensures img.Valid() && AppliedAt(old(img.lines), old(img.line), f, opt, at, m, img.lines)
    ensures m == Larger(f.leading, f.trailing) ==>
      Exactly(old(img.lines), old(img.line), OldLines(f.patch, opt.inReverse), KeptLines(f.patch, opt.inReverse, opt.noAdd),
              at, img.lines, img.line)
    ensures m == Larger(f.leading, f.trailing) && !opt.allowOverlap ==>
      AllPatched(img.line, at, |KeptLines(f.patch, opt.inReverse, opt.noAdd)|)
  {
    hide Concat, Hash, MatchAt, TableOk, Side, Leading, Trailing, HasChange, Marked, Spliced, Cut, AppliedAt, Exactly, Kept;
    ghost var o, table, was, now := img.lines, img.line, pre.lines, post.lines;
    Lengths(img);
    Lengths(pre);
    Lengths(post);
    UpdateImage(img, at, pre, post, opt.allowOverlap);
    IsApplied(o, table, f, opt, at, m, was, now, img.lines);
    if m == Larger(f.leading, f.trailing) {
      ContextOnBothSides(f, opt.inReverse, '-', if opt.noAdd then ' ' else '+');
      CutNothing(OldLines(f.patch, opt.inReverse), f.leading, f.trailing);
      CutNothing(KeptLines(f.patch, opt.inReverse, opt.noAdd), f.leading, f.trailing);
      IsExact(o, table, was, now, at, Marked(post.line, opt.allowOverlap), img.lines, img.line);
      InsertedAt(table, at, |was|, Marked(post.line, opt.allowOverlap));
      AllMarked(post.line, opt.allowOverlap);
    }
  }

  lemma Boundaries(f: Fragment, opt: Options)
    ensures MatchEnd(f, opt) <==> f.trailing == 0 && !opt.unidiffZero
    ensures MatchBeginning(f, opt) <==> f.oldpos == 0 || (f.oldpos == 1 && !opt.unidiffZero)
  {
  }

  lemma KeptBounds(context: nat, limit: nat)
    ensures Kept(context, limit) <= context && (limit >= context ==> Kept(context, limit) == context)
    ensures forall m: nat | m >= limit :: Kept(context, m) >= Kept(context, limit)
  {
  }

  lemma StillNone(o: seq<Text>, table: seq<Line>, lines: seq<Text>, pos: int, begin: bool, end: bool, applied: int)
    requires applied < 0
    ensures NearestFit(o, table, lines, pos, begin, end, applied) ==> NearestFit(o, table, lines, pos, begin, end, -1)
  {
    hide Fits, Nearer, StartLine;
  }

  lemma MatchEnds(img: Img, pre: Img, pos: nat, atBeginning: bool, atEnd: bool)
    requires img.Valid() && pre.Valid() && MatchAt(img, pre, pos, atBeginning, atEnd)
    ensures (atEnd ==> pos + |pre.line| == |img.line|) && (atBeginning ==> pos == 0)
  {
    hide Concat, Hash;
  }

  lemma InsertedAt(table: seq<Line>, at: nat, n: nat, ins: seq<Line>)
    requires at + n <= |table|
    ensures var r := Spliced(table, at, n, ins);
      at + |ins| <= |r| && forall i | at <= i < at + |ins| :: r[i] == ins[i - at]
  {
  }

  lemma AllMarked(line: seq<Line>, keep: bool)
    ensures !keep ==> forall i | 0 <= i < |line| :: Marked(line, keep)[i].patched
  {
  }

  lemma IsApplied(o: seq<Text>, table: seq<Line>, f: Fragment, opt: Options, at: nat, m: nat, was: seq<Text>, now: seq<Text>, n: seq<Text>)
    requires Kept(f.leading, m) >= Kept(f.leading, opt.context) && Kept(f.trailing, m) >= Kept(f.trailing, opt.context)
    requires was == Cut(OldLines(f.patch, opt.inReverse), f.leading, f.trailing, m)
    requires now == Cut(KeptLines(f.patch, opt.inReverse, opt.noAdd), f.leading, f.trailing, m)
    requires at + |was| <= |o| == |table| && (forall i | at <= i < at + |was| :: !table[i].patched)
    requires Concat(was) <= Concat(o[at..]) && n == Spliced(o, at, |was|, now)
    ensures AppliedAt(o, table, f, opt, at, m, n)
  {
    hide Concat, Side, Spliced, Kept, Cut;
  }

  lemma IsExact(o: seq<Text>, table: seq<Line>, was: seq<Text>, now: seq<Text>, at: nat, ins: seq<Line>, n: seq<Text>, newTable: seq<Line>)
    requires at + |was| <= |o| == |table| && n == Spliced(o, at, |was|, now)
    requires |ins| == |now| && newTable == Spliced(table, at, |was|, ins)
    ensures Exactly(o, table, was, now, at, n, newTable)
  {
  }

  lemma Lengths(img: Img)
    requires img.Tabled()
    ensures |img.line| == |img.lines|
  {
  }

  /** The line where the search starts. */
  ghost function ExpectedAt(nr: nat, f: Fragment, opt: Options): nat {
    StartLine(Position(f), nr, |OldLines(f.patch, opt.inReverse)|, MatchBeginning(f, opt), MatchEnd(f, opt))
  }

  /** The hunk fits untrimmed right there. */
  ghost predicate ExpectedFit(o: seq<Text>, table: seq<Line>, f: Fragment, opt: Options) {
    Fits(o, table, OldLines(f.patch, opt.inReverse), ExpectedAt(|table|, f, opt), MatchBeginning(f, opt), MatchEnd(f, opt))
  }

  // ---------- a whole patch ----------

  /** How many lines precede the first line of a side of a hunk, by its header. */
  function Start(pos: nat, count: nat): int {
    if count == 0 then pos else pos - 1
  }

  /**
   Hunks `i` and later turn the lines of `o` from `a` on into those of `n` from `b` on: between hunks
   the files agree, each hunk says what it replaces and with what, and a hunk that has no leading
   (trailing) context is at the beginning (end) of both files.
   */
  ghost predicate Turns(fs: seq<Fragment>, i: nat, rev: bool, o: seq<Text>, n: seq<Text>, a: int, b: int)
    requires i <= |fs|
    decreases |fs| - i
  {
    && 0 <= a <= |o| && 0 <= b <= |n|
    && if i == |fs| then o[a..] == n[b..]
      else HunkStep(fs[i], rev, o, n, a, b) && Turns(fs, i + 1, rev, o, n, PreReach(fs[i], rev), PostReach(fs[i], rev))
  }

  /** Where a hunk ends in the file it is applied to, and in the result. */
  ghost function PreReach(f: Fragment, rev: bool): int {
    Start(f.oldpos, |OldLines(f.patch, rev)|) + |OldLines(f.patch, rev)|
  }

  ghost function PostReach(f: Fragment, rev: bool): int {
    Start(f.newpos, |NewLines(f.patch, rev)|) + |NewLines(f.patch, rev)|
  }

  ghost predicate HunkStep(f: Fragment, rev: bool, o: seq<Text>, n: seq<Text>, a: int, b: int) {
    var was, now := OldLines(f.patch, rev), NewLines(f.patch, rev);
    var a1, b1 := Start(f.oldpos, |was|), Start(f.newpos, |now|);
    && Shaped(f) && HunkHere(o, n, a, b, was, now, a1, b1)
    && (f.leading == 0 ==> a1 == b1 == 0)
    && (f.trailing == 0 ==> a1 + |was| == |o| && b1 + |now| == |n|)
  }

  /** After equally long common parts from `a` and `b`, `was` stands at `a1` and `now` at `b1`. */
  ghost predicate HunkHere(o: seq<Text>, n: seq<Text>, a: int, b: int, was: seq<Text>, now: seq<Text>, a1: int, b1: int) {
    && 0 <= a <= a1 <= a1 + |was| <= |o| && 0 <= b <= b1 <= b1 + |now| <= |n| && a1 - a == b1 - b
    && o[a..a1] == n[b..b1] && o[a1..a1 + |was|] == was && n[b1..b1 + |now|] == now
  }

  /** The image part way: `b` lines are done, and the rest still comes from `o` at `a`. */
  ghost predicate PartWay(lines: seq<Text>, table: seq<Line>, o: seq<Text>, n: seq<Text>, a: nat, b: nat) {
    && a <= |o| && b <= |n| && lines == n[..b] + o[a..] && |table| == |lines|
    && forall i | b <= i < |table| :: !table[i].patched
  }

  /** A hunk of a well-formed patch fits where the search for it starts. */
  lemma HunkFits(lines: seq<Text>, table: seq<Line>, o: seq<Text>, n: seq<Text>, a: nat, b: nat, f: Fragment, opt: Options)
    requires PartWay(lines, table, o, n, a, b) && (a == 0 && |o| > 0 ==> b == 0) && HunkStep(f, opt.inReverse, o, n, a, b)
    requires |n| <= INT_MAX
    ensures ExpectedFit(lines, table, f, opt)
    ensures ExpectedAt(|table|, f, opt) == Start(f.newpos, |NewLines(f.patch, opt.inReverse)|)
  {
    hide Side, Shaped, Position, Fits, PartWay;
    ContextOnBothSides(f, opt.inReverse, '-', '+');
    PositionFits(f);
    var was, now := OldLines(f.patch, opt.inReverse), NewLines(f.patch, opt.inReverse);
    var a1, b1 := Start(f.oldpos, |was|), Start(f.newpos, |now|);
    LinesHere(lines, table, o, n, a, b, was, now, a1, b1);
    hide HunkHere;
    FitsWithout(lines, table, was, b1, b1 == 0, a1 + |was| == |o|, MatchBeginning(f, opt), MatchEnd(f, opt));
  }

  lemma FitsWithout(o: seq<Text>, table: seq<Line>, expected: seq<Text>, k: nat, b: bool, e: bool, b2: bool, e2: bool)
    requires Fits(o, table, expected, k, b, e) && (b2 ==> b) && (e2 ==> e)
    ensures Fits(o, table, expected, k, b2, e2)
  {
  }

  /** What the hunk expects stands in the image where the result will have its new lines. */
  lemma LinesHere(lines: seq<Text>, table: seq<Line>, o: seq<Text>, n: seq<Text>, a: nat, b: nat,
                  was: seq<Text>, now: seq<Text>, a1: int, b1: int)
    requires PartWay(lines, table, o, n, a, b) && HunkHere(o, n, a, b, was, now, a1, b1)
    ensures 0 <= b1 && Fits(lines, table, was, b1, b1 == 0, a1 + |was| == |o|) && |lines| - |o| == b1 - a1
  {
    Shift(lines, n[..b], o, a, b, a1, |was|);
  }

  lemma Shift(lines: seq<Text>, done: seq<Text>, o: seq<Text>, a: nat, b: nat, a1: nat, k: nat)
    requires |done| == b && a <= a1 <= a1 + k <= |o| && lines == done + o[a..]
    ensures lines[b + a1 - a..b + a1 - a + k] == o[a1..a1 + k]
  {
    var x, y := lines[b + a1 - a..b + a1 - a + k], o[a1..a1 + k];
    assert forall i | 0 <= i < k :: x[i] == lines[b + a1 - a + i] == o[a..][a1 - a + i] == y[i];
  }

  /** Applying it moves on to the next hunk. */
  lemma HunkDone(lines: seq<Text>, table: seq<Line>, o: seq<Text>, n: seq<Text>, a: nat, b: nat,
                 was: seq<Text>, now: seq<Text>, a1: nat, b1: nat, lines2: seq<Text>, table2: seq<Line>)
    requires PartWay(lines, table, o, n, a, b) && HunkHere(o, n, a, b, was, now, a1, b1)
    requires Exactly(lines, table, was, now, b1, lines2, table2)
    ensures PartWay(lines2, table2, o, n, a1 + |was|, b1 + |now|)
  {
    var b2 := b1 + |now|;
    assert n[..b2] == n[..b] + n[b..b1] + n[b1..b2];
    assert lines[..b1] == n[..b] + o[a..a1];
    assert lines[b1 + |was|..] == o[a1 + |was|..];
    forall i | b2 <= i < |table2| ensures !table2[i].patched {
      assert table2[i] == table2[b2..][i - b2] == table[b1 + |was|..][i - b2];
    }
  }

  /** apply_fragments: a well-formed patch turns the old file into the new one. */
  method ApplyFragments(img: Img, fs: seq<Fragment>, opt: Options, withReject: bool, ghost n: seq<Text>)
    returns (ok: bool, rejected: seq<bool>)
    requires img.Valid() && forall i | 0 <= i < |fs| :: Shaped(fs[i])
    modifies img
    ensures img.Valid() && |rejected| <= |fs| && (ok <==> |rejected| == |fs|)
    ensures ok && !withReject ==> forall i | 0 <= i < |fs| :: !rejected[i]
    ensures
      (&& (forall i | 0 <= i < |old(img.line)| :: !old(img.line)[i].patched) && !opt.noAdd
       && |n| <= INT_MAX && Turns(fs, 0, opt.inReverse, old(img.lines), n, 0, 0)) ==>
      ok && img.lines == n && forall i | 0 <= i < |fs| :: !rejected[i]
  {
    hide *;
    ghost var o := img.lines;
    ghost var wellFormed := (forall i | 0 <= i < |img.line| :: !img.line[i].patched) && !opt.noAdd
      && |n| <= INT_MAX && Turns(fs, 0, opt.inReverse, o, n, 0, 0);
    ghost var a: nat, b: nat := 0, 0;
    if wellFormed {
      Begins(fs, opt.inReverse, img, n);
    }
    rejected := [];
    for i := 0 to |fs|
      invariant img.Valid() && |rejected| == i
      invariant !withReject ==> forall k | 0 <= k < i :: !rejected[k]
      invariant wellFormed ==> InStep(fs, i, opt.inReverse, o, n, a, b, img.lines, img.line)
      invariant wellFormed ==> forall k | 0 <= k < i :: !rejected[k]
    {
      ghost var lines, table := img.lines, img.line;
      if wellFormed {
        HunkIsDue(fs, i, opt, o, n, a, b, lines, table);
      }
      var applied, at, _, whole := ApplyOneFragment(img, fs[i], opt);
      if wellFormed {
        AppliedAsExpected(lines, table, fs[i], opt, applied, at, whole);
      }
      if !applied && !withReject {
        return false, rejected;
      }
      rejected := rejected + [!applied];
      if wellFormed {
        a, b := Advance(fs, i, opt, o, n, a, b, lines, table, img.lines, img.line);
      }
    }
    ok := true;
    if wellFormed {
      Ends(fs, opt.inReverse, o, n, a, b, img.lines, img.line);
    }
  }

  /** The place where the search starts is nearest to itself. */
  lemma AppliedAsExpected(lines: seq<Text>, table: seq<Line>, f: Fragment, opt: Options, ok: bool, at: nat, whole: bool)
    requires ExpectedFit(lines, table, f, opt)
    requires NearestFit(lines, table, OldLines(f.patch, opt.inReverse), Position(f), MatchBeginning(f, opt), MatchEnd(f, opt),
                        if whole && ok then at else -1)
    ensures ok && whole && at == ExpectedAt(|table|, f, opt)
  {
    hide Side, Fits, StartLine;
  }

  /** Where the loop of apply_fragments stands before hunk `i`. */
  ghost predicate InStep(fs: seq<Fragment>, i: nat, rev: bool, o: seq<Text>, n: seq<Text>, a: nat, b: nat,
                         lines: seq<Text>, table: seq<Line>) {
    i <= |fs| && |n| <= INT_MAX && Turns(fs, i, rev, o, n, a, b) && PartWay(lines, table, o, n, a, b) && (a == 0 && |o| > 0 ==> b == 0)
  }

  lemma Begins(fs: seq<Fragment>, rev: bool, img: Img, n: seq<Text>)
    requires img.Valid() && (forall i | 0 <= i < |img.line| :: !img.line[i].patched)
    requires |n| <= INT_MAX && Turns(fs, 0, rev, img.lines, n, 0, 0)
    ensures InStep(fs, 0, rev, img.lines, n, 0, 0, img.lines, img.line)
  {
    hide Turns, Hash;
  }

  lemma HunkIsDue(fs: seq<Fragment>, i: nat, opt: Options, o: seq<Text>, n: seq<Text>, a: nat, b: nat, lines: seq<Text>, table: seq<Line>)
    requires i < |fs| && InStep(fs, i, opt.inReverse, o, n, a, b, lines, table)
    ensures ExpectedFit(lines, table, fs[i], opt)
  {
    hide Side, PartWay, HunkHere, ExpectedFit, Shaped;
    HunkFits(lines, table, o, n, a, b, fs[i], opt);
  }

  lemma Advance(fs: seq<Fragment>, i: nat, opt: Options, o: seq<Text>, n: seq<Text>, a: nat, b: nat,
                lines: seq<Text>, table: seq<Line>, lines2: seq<Text>, table2: seq<Line>) returns (a2: nat, b2: nat)
    requires i < |fs| && !opt.noAdd && InStep(fs, i, opt.inReverse, o, n, a, b, lines, table)
    requires Exactly(lines, table, OldLines(fs[i].patch, opt.inReverse), KeptLines(fs[i].patch, opt.inReverse, opt.noAdd),
                     ExpectedAt(|table|, fs[i], opt), lines2, table2)
    ensures InStep(fs, i + 1, opt.inReverse, o, n, a2, b2, lines2, table2)
  {
    hide Side, PartWay, HunkHere, ExpectedFit, Exactly, Shaped, ExpectedAt;
    var was, now := OldLines(fs[i].patch, opt.inReverse), NewLines(fs[i].patch, opt.inReverse);
    HunkFits(lines, table, o, n, a, b, fs[i], opt);
    StaysAtStart(fs[i], opt.inReverse, o, n, a, b);
    var a1: nat, b1: nat := Start(fs[i].oldpos, |was|), Start(fs[i].newpos, |now|);
    HunkDone(lines, table, o, n, a, b, was, now, a1, b1, lines2, table2);
    a2, b2 := a1 + |was|, b1 + |now|;
  }

  lemma Ends(fs: seq<Fragment>, rev: bool, o: seq<Text>, n: seq<Text>, a: nat, b: nat, lines: seq<Text>, table: seq<Line>)
    requires InStep(fs, |fs|, rev, o, n, a, b, lines, table)
    ensures lines == n
  {
    assert n[..b] + n[b..] == n;
  }

  /** Only a hunk of an empty file consumes nothing. */
  lemma StaysAtStart(f: Fragment, rev: bool, o: seq<Text>, n: seq<Text>, a: nat, b: nat)
    requires Shaped(f)
    requires var was, now := OldLines(f.patch, rev), NewLines(f.patch, rev);
      var a1, b1 := Start(f.oldpos, |was|), Start(f.newpos, |now|);
      HunkHere(o, n, a, b, was, now, a1, b1) && (f.trailing == 0 ==> a1 + |was| == |o|)
    ensures Start(f.oldpos, |OldLines(f.patch, rev)|) + |OldLines(f.patch, rev)| == 0 ==> |o| == 0
    ensures Start(f.oldpos, |OldLines(f.patch, rev)|) >= 0 && Start(f.newpos, |NewLines(f.patch, rev)|) >= 0
  {
    hide Side, Leading, Trailing, HasChange;
    ContextOnBothSides(f, rev, '-', '+');
  }

  // ---------- reverse ----------

  function Swapped(f: Fragment): Fragment {
    f.(oldpos := f.newpos, newpos := f.oldpos, oldlines := f.newlines, newlines := f.oldlines)
  }

  /** reverse_patches, as far as the hunks go. */
  method ReversePatches(fs: array<Fragment>)
    modifies fs
    ensures forall i | 0 <= i < fs.Length :: fs[i] == Swapped(old(fs[i]))
  {
    for i := 0 to fs.Length
      invariant forall k | 0 <= k < i :: fs[k] == Swapped(old(fs[k]))
      invariant forall k | i <= k < fs.Length :: fs[k] == old(fs[k])
    {
      var f := fs[i];
      fs[i] := f.(oldpos := f.newpos, newpos := f.oldpos);
      f := fs[i];
      fs[i] := f.(oldlines := f.newlines, newlines := f.oldlines);
    }
  }

  /** The reversed patch, read in reverse, turns the new file into the old one. */
  lemma {:induction false} ReverseTurnsBack(fs: seq<Fragment>, i: nat, rs: seq<Fragment>, o: seq<Text>, n: seq<Text>, a: int, b: int)
    requires i <= |fs| == |rs| && (forall k | 0 <= k < |fs| :: rs[k] == Swapped(fs[k])) && Turns(fs, i, false, o, n, a, b)
    ensures Turns(rs, i, true, n, o, b, a)
    decreases |fs| - i
  {
    hide HunkStep, PreReach, PostReach;
    if i < |fs| {
      ReverseStep(fs[i], o, n, a, b);
      ReverseTurnsBack(fs, i + 1, rs, o, n, PreReach(fs[i], false), PostReach(fs[i], false));
    }
  }

  lemma ReverseStep(f: Fragment, o: seq<Text>, n: seq<Text>, a: int, b: int)
    requires HunkStep(f, false, o, n, a, b)
    ensures HunkStep(Swapped(f), true, n, o, b, a)
    ensures PreReach(Swapped(f), true) == PostReach(f, false) && PostReach(Swapped(f), true) == PreReach(f, false)
  {
    hide Side, Leading, Trailing, HasChange;
    ReverseSwapsSides(f.patch);
  }

  /** Applying a patch to a file and then its reverse restores the file, byte for byte. */
  method ApplyAndReverse(text: Text, fs: array<Fragment>, opt: Options, ghost o: seq<Text>, ghost n: seq<Text>)
    returns (there: Text, back: Text)
    requires !opt.inReverse && !opt.noAdd && Proper(o) && Proper(n) && Concat(o) == text
    requires Turns(fs[..], 0, false, o, n, 0, 0) && forall i | 0 <= i < fs.Length :: Shaped(fs[i])
    modifies fs
    ensures |o| <= INT_MAX && |n| <= INT_MAX ==> there == Concat(n) && back == text
  {
    hide Concat, Turns, Proper, Side, Shaped, Hash, TableOk;
    ghost var before := fs[..];
    var img := new Img();
    img.Prepare(text);
    LinesAreUnique(img.lines, o);
    var ok, rejected := ApplyFragments(img, fs[..], opt, false, n);
    there := img.buf;
    ReversePatches(fs);
    ReverseTurnsBack(before, 0, fs[..], o, n, 0, 0);
    ReverseKeepsShape(before, fs[..]);
    var img2 := new Img();
    img2.Prepare(there);
    if |n| <= INT_MAX {
      LinesAreUnique(img2.lines, n);
    }
    ok, rejected := ApplyFragments(img2, fs[..], opt.(inReverse := true), false, o);
    back := img2.buf;
  }

  lemma ReverseKeepsShape(fs: seq<Fragment>, rs: seq<Fragment>)
    requires |fs| == |rs| && (forall k | 0 <= k < |fs| :: rs[k] == Swapped(fs[k]) && Shaped(fs[k]))
    ensures forall k | 0 <= k < |rs| :: Shaped(rs[k])
  {
  }
}
