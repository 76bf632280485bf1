/**
 The image of a file in apply.c: its bytes and a table of its lines, kept in step; and the
 search for the place where a hunk applies.
 */
module Image {
  import opened Wrappers

  type Text = seq<char>

  /** A table entry; the hash is kept in 24 bits. */
  datatype Line = Line(len: nat, hash: nat, common: bool, patched: bool)

  ghost function Concat(lines: seq<Text>): Text {
    if lines == [] then [] else Concat(lines[..|lines| - 1]) + lines[|lines| - 1]
  }

  lemma {:induction false} ConcatAppend(x: seq<Text>, y: seq<Text>)
    ensures Concat(x + y) == Concat(x) + Concat(y)
  {
    if y == [] {
      assert x + y == x;
    } else {
      var z, last := y[..|y| - 1], y[|y| - 1];
      assert (x + y)[..|x + y| - 1] == x + z && (x + y)[|x + y| - 1] == last;
      ConcatAppend(x, z);
      assert Concat(x + y) == Concat(x) + Concat(z) + last == Concat(x) + (Concat(z) + last);
    }
  }

  lemma ConcatOne(line: Text)
    ensures Concat([line]) == line
  {
    assert [line][..0] == [];
  }

  /** hash_line: 32-bit arithmetic over the characters that are not white space. */
  function HashFrom(text: Text, h: nat): nat {
    if text == [] then h
    else HashFrom(text[1..], if IsSpace(text[0]) then h else (h * 3 + (text[0] as nat) % 0x100) % 0x1_0000_0000)
  }

  /** The 24 bits of it that a table entry holds. */
  function Hash(text: Text): nat {
    HashFrom(text, 0) % 0x100_0000
  }

  method HashLine(text: Text) returns (h: nat)
    ensures h == HashFrom(text, 0) && h % 0x100_0000 == Hash(text)
  {
    h := 0;
    var rest := text;
    while rest != []
      invariant HashFrom(rest, h) == HashFrom(text, 0)
    {
      if !IsSpace(rest[0]) {
        h := (h * 3 + (rest[0] as nat) % 0x100) % 0x1_0000_0000;
      }
      rest := rest[1..];
    }
  }

  ghost predicate TableOk(line: seq<Line>, lines: seq<Text>) {
    |line| == |lines| && forall i | 0 <= i < |line| :: line[i].len == |lines[i]| && line[i].hash == Hash(lines[i])
  }

  class Img {
    var buf: Text
    var line: seq<Line>
    ghost var lines: seq<Text>

    /** The table describes `lines`. */
    ghost predicate Tabled()
      reads this
    {
      TableOk(line, lines)
    }

    /** And the bytes are those of `lines`. */
    ghost predicate Valid()
      reads this
    {
      Tabled() && buf == Concat(lines)
    }

    constructor ()
      ensures Valid() && lines == [] && line == [] && buf == []
    {
      buf, line, lines := [], [], [];
    }

    /** image_add_line: extends the table only. */
    method AddLine(text: Text, common: bool)
      requires Tabled()
      modifies this`line, this`lines
      ensures Tabled() && lines == old(lines) + [text]
      ensures line == old(line) + [Line(|text|, Hash(text), common, false)]
    {
      var h := HashLine(text);
      line := line + [Line(|text|, h % 0x100_0000, common, false)];
      lines := lines + [text];
    }

    /** image_prepare with a line table. */
    method Prepare(text: Text)
      modifies this
      ensures Valid() && buf == text && Proper(lines)
      ensures forall i | 0 <= i < |line| :: !line[i].patched
    {
      hide Concat, Complete, Hash;
      buf, line, lines := text, [], [];
      var cp := 0;
      assert Concat([]) == [] by { ConcatNone(); }
      while cp < |text|
        invariant 0 <= cp <= |text| && buf == text && Tabled() && Concat(lines) == text[..cp]
        invariant Proper(lines) && (cp < |text| ==> lines == [] || Complete(lines[|lines| - 1]))
        invariant forall i | 0 <= i < |line| :: !line[i].patched
      {
        var next := NextLine(text, cp);
        ProperAppend(lines, text[cp..next]);
        ConcatNext(lines, text, cp, next);
        AddLine(text[cp..next], false);
        cp := next;
      }
      assert text[..|text|] == text;
    }

    /** The end of the line that starts at `cp`. */
    static method NextLine(text: Text, cp: nat) returns (next: nat)
      requires cp < |text|
      ensures cp < next <= |text|
      ensures Complete(text[cp..next]) || (next == |text| && Incomplete(text[cp..next]))
    {
      next := cp;
      while next < |text| && text[next] != '\n'
        invariant cp <= next <= |text| && forall i | cp <= i < next :: text[i] != '\n'
      {
        next := next + 1;
      }
      if next < |text| {
        next := next + 1;
      }
    }

    /** image_remove_first_line and image_remove_last_line. */
    method RemoveFirstLine()
      requires Valid() && lines != []
      modifies this
      ensures Valid() && lines == old(lines)[1..] && line == old(line)[1..]
    {
      assert lines == [lines[0]] + lines[1..];
      ConcatAppend([lines[0]], lines[1..]);
      ConcatOne(lines[0]);
      buf := buf[line[0].len..];
      line := line[1..];
      lines := lines[1..];
    }

    method RemoveLastLine()
      requires Valid() && lines != []
      modifies this
      ensures Valid() && lines == old(lines)[..|old(lines)| - 1] && line == old(line)[..|old(line)| - 1]
    {
      var last := line[|line| - 1].len;
      buf := buf[..|buf| - last];
      line := line[..|line| - 1];
      lines := lines[..|lines| - 1];
    }

    /** The byte offset of line `k`, summed over the table. */
    method OffsetOf(k: nat) returns (offset: nat)
      requires Tabled() && k <= |line|
      ensures offset == |Concat(lines[..k])|
    {
      offset := 0;
      for i := 0 to k
        invariant offset == |Concat(lines[..i])|
      {
        assert lines[..i + 1][..i] == lines[..i];
        offset := offset + line[i].len;
      }
    }
  }

  /** A line that ends with its only newline. */
  ghost predicate Complete(text: Text) {
    text != [] && text[|text| - 1] == '\n' && forall i | 0 <= i < |text| - 1 :: text[i] != '\n'
  }

  ghost predicate Incomplete(text: Text) {
    text != [] && forall i | 0 <= i < |text| :: text[i] != '\n'
  }

  /** The lines of a file: all are complete, except that the last may lack its newline. */
  ghost predicate Proper(lines: seq<Text>) {
    forall i | 0 <= i < |lines| :: Complete(lines[i]) || (i == |lines| - 1 && Incomplete(lines[i]))
  }

  lemma ConcatNone()
    ensures Concat([]) == []
  {
  }

  lemma ProperAppend(lines: seq<Text>, line: Text)
    requires Proper(lines) && (lines == [] || Complete(lines[|lines| - 1])) && (Complete(line) || Incomplete(line))
    ensures Proper(lines + [line])
  {
    hide Complete, Incomplete;
  }

  lemma ConcatNext(lines: seq<Text>, text: Text, cp: nat, next: nat)
    requires cp <= next <= |text| && Concat(lines) == text[..cp]
    ensures Concat(lines + [text[cp..next]]) == text[..next]
  {
    ConcatAppend(lines, [text[cp..next]]);
    ConcatOne(text[cp..next]);
  }

  lemma ConcatSplit(lines: seq<Text>, k: nat)
    requires k <= |lines|
    ensures Concat(lines) == Concat(lines[..k]) + Concat(lines[k..])
  {
    assert lines == lines[..k] + lines[k..];
    ConcatAppend(lines[..k], lines[k..]);
  }

  // ---------- matching ----------

  /** The quick check of one table entry. */
  ghost predicate EntryMatches(img: seq<Line>, pre: seq<Line>, pos: nat, i: nat)
    requires i < |pre| && pos + i < |img|
  {
    !img[pos + i].patched && img[pos + i].hash == pre[i].hash
  }

  /** What match_fragment tests at line `pos` when white space must match exactly. */
  ghost predicate MatchAt(img: Img, pre: Img, pos: nat, atBeginning: bool, atEnd: bool)
    requires img.Valid() && pre.Valid()
    reads img, pre
  {
    && pos + |pre.line| <= |img.line|
    && (atEnd ==> pos + |pre.line| == |img.line|)
    && (atBeginning ==> pos == 0)
    && (forall i | 0 <= i < |pre.line| :: EntryMatches(img.line, pre.line, pos, i))
    && BytesMatch(img.buf, |Concat(img.lines[..pos])|, pre.buf, atEnd)
  }

  /** Equal unpatched lines are a match. */
  lemma EqualLinesMatch(img: Img, pre: Img, pos: nat, atBeginning: bool, atEnd: bool)
    requires img.Valid() && pre.Valid() && pos + |pre.lines| <= |img.lines|
    requires img.lines[pos..pos + |pre.lines|] == pre.lines
    requires forall k | pos <= k < pos + |pre.lines| :: !img.line[k].patched
    requires (atEnd ==> pos + |pre.lines| == |img.lines|) && (atBeginning ==> pos == 0)
    ensures MatchAt(img, pre, pos, atBeginning, atEnd)
  {
    hide Hash, Concat;
    var n := |pre.lines|;
    forall i | 0 <= i < n ensures EntryMatches(img.line, pre.line, pos, i) {
      assert img.lines[pos..pos + n][i] == img.lines[pos + i];
    }
    ConcatSplit(img.lines, pos);
    ConcatSplit(img.lines[pos..], n);
    assert img.lines[pos..][..n] == pre.lines;
    assert img.buf == Concat(img.lines[..pos]) + (pre.buf + Concat(img.lines[pos..][n..]));
    if atEnd {
      assert img.lines[pos..][n..] == [];
      ConcatNone();
    }
  }

  lemma ConcatFirst(x: seq<Text>)
    requires x != []
    ensures Concat(x) == x[0] + Concat(x[1..])
  {
    hide Concat;
    ConcatSplit(x, 1);
    assert x[..1] == [x[0]];
    ConcatOne(x[0]);
  }

  /** A line that starts the bytes of some lines starts the first of them, and is all of it if it is complete. */
  lemma FirstLineFits(line: Text, y: seq<Text>)
    requires (Complete(line) || Incomplete(line)) && y != [] && Proper(y) && line <= Concat(y)
    ensures line <= y[0] && (Complete(line) ==> line == y[0])
  {
    hide Concat;
    ConcatFirst(y);
    ConcatNone();
    assert |y| == 1 ==> y[1..] == [];
    assert forall i | 0 <= i < |line| && i < |y[0]| :: line[i] == Concat(y)[i] == y[0][i];
    assert |line| <= |y[0]| ==> y[0][..|line|] == line;
  }

  /** `x` is the first lines of `y`, except that its last one may stop short of the end of a line. */
  ghost predicate StartOf(x: seq<Text>, y: seq<Text>) {
    && |x| <= |y| && (forall i | 0 <= i < |x| - 1 :: x[i] == y[i])
    && (x != [] ==> var last := |x| - 1; x[last] == y[last] || (Incomplete(x[last]) && x[last] <= y[last]))
  }

  lemma {:induction false} ProperStart(x: seq<Text>, y: seq<Text>)
    requires Proper(x) && Proper(y) && |x| <= |y|
    ensures Concat(x) <= Concat(y) <==> StartOf(x, y)
  {
    hide Concat, Complete, Incomplete;
    if x == [] {
      ConcatNone();
    } else {
      ConcatFirst(x);
      ConcatFirst(y);
      assert Complete(x[0]) || Incomplete(x[0]);
      if Concat(x) <= Concat(y) {
        PrefixOf(x[0], Concat(x[1..]), Concat(y));
        FirstLineFits(x[0], y);
      }
      if |x| == 1 {
        ConcatNone();
        assert x[1..] == [];
        PrefixThrough(x[0], y[0], Concat(y[1..]));
      } else {
        assert Complete(x[0]);
        ProperStart(x[1..], y[1..]);
        StartStep(x, y);
        if x[0] == y[0] {
          SamePrefix(x[0], Concat(x[1..]), Concat(y[1..]));
        }
      }
    }
  }

  lemma PrefixOf(a: Text, b: Text, c: Text)
    requires a + b <= c
    ensures a <= c
  {
  }

  lemma PrefixThrough(a: Text, b: Text, c: Text)
    ensures a <= b ==> a <= b + c
  {
  }

  lemma SamePrefix(a: Text, b: Text, c: Text)
    ensures a + b <= a + c <==> b <= c
  {
    if a + b <= a + c {
      forall i | 0 <= i < |b| ensures b[i] == c[i] {
        assert (a + b)[|a| + i] == (a + c)[|a| + i];
      }
    }
  }

  lemma StartStep(x: seq<Text>, y: seq<Text>)
    requires 2 <= |x| <= |y|
    ensures StartOf(x, y) <==> x[0] == y[0] && StartOf(x[1..], y[1..])
  {
    if x[0] == y[0] && StartOf(x[1..], y[1..]) {
      forall i | 0 <= i < |x| - 1 ensures x[i] == y[i] {
        if i > 0 {
          assert x[1..][i - 1] == y[1..][i - 1];
        }
      }
    }
  }

  lemma SameRest(a: Text, b: Text, c: Text)
    requires a + b == a + c
    ensures b == c
  {
    assert (a + b)[|a|..] == b && (a + c)[|a|..] == c;
  }

  /** Only one sequence of lines makes up a file. */
  lemma {:induction false} LinesAreUnique(x: seq<Text>, y: seq<Text>)
    requires Proper(x) && Proper(y) && Concat(x) == Concat(y)
    ensures x == y
  {
    hide Concat;
    if x == [] || y == [] {
      ConcatNone();
      if x != [] {
        ConcatFirst(x);
      }
      if y != [] {
        ConcatFirst(y);
      }
    } else {
      ConcatFirst(x);
      ConcatFirst(y);
      FirstLineFits(x[0], y);
      FirstLineFits(y[0], x);
      assert x[0] == y[0][..|x[0]|] == y[0];
      SameRest(x[0], Concat(x[1..]), Concat(y[1..]));
      LinesAreUnique(x[1..], y[1..]);
      assert x == [x[0]] + x[1..] && y == [y[0]] + y[1..];
    }
  }

  /**
   What a match means: the same lines, except that a last line without newline also matches a
   longer line that starts with it and has the same hash, unless the end of the file is required.
   */
  ghost predicate SameLines(x: seq<Text>, y: seq<Text>, atEnd: bool) {
    && |x| == |y| && (forall i | 0 <= i < |x| - 1 :: x[i] == y[i])
    && (x != [] ==> var last := |x| - 1;
      x[last] == y[last] || (!atEnd && Incomplete(x[last]) && x[last] <= y[last] && Hash(x[last]) == Hash(y[last])))
  }

  lemma MatchMeansSameLines(img: Img, pre: Img, pos: nat, atBeginning: bool, atEnd: bool)
    requires img.Valid() && pre.Valid() && Proper(img.lines) && Proper(pre.lines)
    ensures MatchAt(img, pre, pos, atBeginning, atEnd) <==>
      && pos + |pre.lines| <= |img.lines| && (atEnd ==> pos + |pre.lines| == |img.lines|) && (atBeginning ==> pos == 0)
      && (forall k | pos <= k < pos + |pre.lines| :: !img.line[k].patched)
      && SameLines(pre.lines, img.lines[pos..pos + |pre.lines|], atEnd)
  {
    hide Concat, Hash, Proper, Incomplete, SameLines, StartOf, TableOk;
    assert TableOk(img.line, img.lines) && TableOk(pre.line, pre.lines);
    Tables(img);
    Tables(pre);
    if pos + |pre.lines| <= |img.lines| && (atEnd ==> pos + |pre.lines| == |img.lines|) {
      BytesMeanLines(img.lines, pre.lines, pos, atEnd);
      HashesMeanLines(img.line, img.lines, pre.line, pre.lines, pos, atEnd);
    }
  }

  /** So the hunk line "a" that says "no newline at end of file" matches an image line "a" that has one, unless the end is required. */
  lemma NewlineIsNotSeen(img: Img, pre: Img)
    requires img.Valid() && pre.Valid() && img.lines == ["a\n"] && pre.lines == ["a"] && !img.line[0].patched
    ensures MatchAt(img, pre, 0, false, false) && !MatchAt(img, pre, 0, false, true)
  {
    hide Concat, MatchAt;
    assert HashFrom("a\n"[1..], 97) == 97 && "a\n"[1..][1..] == [];
    assert SameLines(["a"], ["a\n"], false) && !SameLines(["a"], ["a\n"], true);
    assert img.lines[0..1] == img.lines;
    MatchMeansSameLines(img, pre, 0, false, false);
    MatchMeansSameLines(img, pre, 0, false, true);
  }

  lemma Tables(img: Img)
    requires img.Tabled()
    ensures |img.line| == |img.lines|
  {
  }

  /** The byte test of match_fragment. */
  ghost predicate BytesMatch(buf: Text, offset: nat, bytes: Text, atEnd: bool) {
    && (if atEnd then offset + |bytes| == |buf| else offset + |bytes| <= |buf|)
    && buf[offset..offset + |bytes|] == bytes
  }

  /** What that test means for the lines. */
  ghost predicate LinesFit(x: seq<Text>, y: seq<Text>, atEnd: bool) {
    StartOf(x, y) && (atEnd && x != [] ==> x[|x| - 1] == y[|x| - 1])
  }

  lemma BytesMeanLines(img: seq<Text>, pre: seq<Text>, pos: nat, atEnd: bool)
    requires Proper(img) && Proper(pre) && pos + |pre| <= |img| && (atEnd ==> pos + |pre| == |img|)
    ensures BytesMatch(Concat(img), |Concat(img[..pos])|, Concat(pre), atEnd) <==> LinesFit(pre, img[pos..], atEnd)
  {
    hide Concat, Complete, Incomplete, StartOf;
    var rest := img[pos..];
    ConcatSplit(img, pos);
    ProperStart(pre, rest);
    StartBytes(Concat(img), Concat(img[..pos]), Concat(rest), Concat(pre));
    if atEnd && StartOf(pre, rest) {
      if pre == [] {
        ConcatNone();
      } else {
        LastLineLength(pre, rest);
      }
    }
  }

  lemma HashesMeanLines(img: seq<Line>, imgLines: seq<Text>, pre: seq<Line>, preLines: seq<Text>, pos: nat, atEnd: bool)
    requires TableOk(img, imgLines) && TableOk(pre, preLines) && pos + |pre| <= |img|
    ensures (forall i | 0 <= i < |pre| :: EntryMatches(img, pre, pos, i)) && LinesFit(preLines, imgLines[pos..], atEnd) <==>
      && (forall k | pos <= k < pos + |pre| :: !img[k].patched)
      && SameLines(preLines, imgLines[pos..pos + |pre|], atEnd)
  {
    hide Hash, Incomplete;
    var n, rest, part := |pre|, imgLines[pos..], imgLines[pos..pos + |pre|];
    assert forall i | 0 <= i < n :: part[i] == rest[i] == imgLines[pos + i];
    Entries(img, pre, pos);
    if LinesFit(preLines, rest, atEnd) {
      forall i | 0 <= i < n - 1 ensures img[pos + i].hash == pre[i].hash {
        assert preLines[i] == rest[i];
      }
      forall i | 0 <= i < n - 1 ensures preLines[i] == part[i] {
        assert preLines[i] == rest[i];
      }
    }
  }

  lemma Entries(img: seq<Line>, pre: seq<Line>, pos: nat)
    requires pos + |pre| <= |img|
    ensures (forall i | 0 <= i < |pre| :: EntryMatches(img, pre, pos, i)) <==>
      (forall k | pos <= k < pos + |pre| :: !img[k].patched && img[k].hash == pre[k - pos].hash)
  {
    if forall i | 0 <= i < |pre| :: EntryMatches(img, pre, pos, i) {
      forall k | pos <= k < pos + |pre| ensures !img[k].patched && img[k].hash == pre[k - pos].hash {
        assert EntryMatches(img, pre, pos, k - pos);
      }
    }
  }

  lemma StartBytes(buf: Text, before: Text, after: Text, bytes: Text)
    requires buf == before + after
    ensures |before| + |bytes| <= |buf| ==> (buf[|before|..|before| + |bytes|] == bytes <==> bytes <= after)
    ensures bytes <= after ==> |before| + |bytes| <= |buf|
  {
    if |before| + |bytes| <= |buf| {
      assert buf[|before|..|before| + |bytes|] == after[..|bytes|];
    }
  }

  lemma LastLineLength(x: seq<Text>, y: seq<Text>)
    requires x != [] && |x| == |y| && StartOf(x, y)
    ensures |Concat(x)| == |Concat(y)| <==> x[|x| - 1] == y[|y| - 1]
  {
    assert x[..|x| - 1] == y[..|y| - 1];
  }

  /** match_fragment. */
  method MatchFragment(img: Img, pre: Img, current: nat, currentLno: nat, atBeginning: bool, atEnd: bool) returns (b: bool)
    requires img.Valid() && pre.Valid() && currentLno <= |img.line| && current == |Concat(img.lines[..currentLno])|
    ensures b == MatchAt(img, pre, currentLno, atBeginning, atEnd)
  {
    hide Concat, Hash;
    if |pre.line| + currentLno <= |img.line| {
      if atEnd && |pre.line| + currentLno != |img.line| {
        return false;
      }
    } else {
      return false;
    }
    if atBeginning && currentLno != 0 {
      return false;
    }
    for i := 0 to |pre.line|
      invariant forall j | 0 <= j < i :: EntryMatches(img.line, pre.line, currentLno, j)
    {
      assert EntryMatches(img.line, pre.line, currentLno, i) <==>
        !img.line[currentLno + i].patched && img.line[currentLno + i].hash == pre.line[i].hash;
      if img.line[currentLno + i].patched || pre.line[i].hash != img.line[currentLno + i].hash {
        return false;
      }
    }
    b := (if atEnd then current + |pre.buf| == |img.buf| else current + |pre.buf| <= |img.buf|)
      && img.buf[current..current + |pre.buf|] == pre.buf;
  }

  // ---------- searching ----------

  /** The line find_pos starts from. */
  function StartLine(line: int, imgNr: nat, preNr: nat, atBeginning: bool, atEnd: bool): nat {
    var l := if atBeginning then 0 else if atEnd then imgNr - preNr else line;
    if l < 0 || l > imgNr then imgNr else l
  }

  /** Is `k` found before `p` by a search from `start` that goes outwards, forwards first? */
  predicate Nearer(start: int, k: int, p: int) {
    var dk, dp := if k < start then start - k else k - start, if p < start then start - p else p - start;
    dk < dp || (dk == dp && k > p)
  }

  /** `r` is the first match in that order, and -1 if there is none. */
  ghost predicate FirstMatch(img: Img, pre: Img, start: nat, atBeginning: bool, atEnd: bool, r: int)
    requires img.Valid() && pre.Valid()
    reads img, pre
  {
    if r < 0 then
      r == -1 && forall k: nat | k <= |img.line| :: !MatchAt(img, pre, k, atBeginning, atEnd)
    else
      && r <= |img.line| && MatchAt(img, pre, r, atBeginning, atEnd)
      && forall k: nat | k <= |img.line| && Nearer(start, k, r) :: !MatchAt(img, pre, k, atBeginning, atEnd)
  }

  /** find_pos. */
  method FindPos(img: Img, pre: Img, line: int, atBeginning0: bool, atEnd: bool, allowOverlap: bool) returns (r: int)
    requires img.Valid() && pre.Valid()
    ensures var atBeginning := atBeginning0 && !(allowOverlap && atEnd && |img.line| != |pre.line|);
      FirstMatch(img, pre, StartLine(line, |img.line|, |pre.line|, atBeginning, atEnd), atBeginning, atEnd, r)
  {
    hide MatchAt, Concat;
    var atBeginning := atBeginning0;
    if allowOverlap && atBeginning && atEnd && |img.line| - |pre.line| != 0 {
      atBeginning := false;
    }
    var start := StartLine(line, |img.line|, |pre.line|, atBeginning, atEnd);
    var current := img.OffsetOf(start);
    ghost var tried;
    r, tried := SearchOutwards(img, pre, start, current, atBeginning, atEnd);
  }

  /** Positions tried by a search from `start` that goes outwards: each once, each before those further away. */
  ghost predicate TriedOutwards(start: nat, nr: nat, tried: seq<nat>) {
    && (forall i | 0 <= i < |tried| :: tried[i] <= nr)
    && (forall i, j | 0 <= i < j < |tried| :: tried[i] != tried[j] && Nearer(start, tried[i], tried[j]))
  }

  lemma TryNext(start: nat, nr: nat, tried: seq<nat>, next: nat)
    requires TriedOutwards(start, nr, tried) && next <= nr && forall k | k in tried :: Nearer(start, k, next)
    ensures TriedOutwards(start, nr, tried + [next])
    ensures forall k :: k in tried + [next] <==> k in tried || k == next
  {
    var t := tried + [next];
    forall i, j | 0 <= i < j < |t| ensures t[i] != t[j] && Nearer(start, t[i], t[j]) {
      assert t[i] in tried;
    }
  }

  /** The loop of find_pos: one step forwards, two backwards, three forwards, and so on. */
  method SearchOutwards(img: Img, pre: Img, start: nat, offset: nat, atBeginning: bool, atEnd: bool) returns (r: int, ghost tried: seq<nat>)
    requires img.Valid() && pre.Valid() && start <= |img.line| && offset == |Concat(img.lines[..start])|
    ensures FirstMatch(img, pre, start, atBeginning, atEnd, r)
    ensures TriedOutwards(start, |img.line|, tried)
    ensures forall k: nat | k <= |img.line| :: k in tried <==> r == -1 || k == r || Nearer(start, k, r)
  {
    hide MatchAt, Concat;
    var nr := |img.line|;
    var backwards, backwardsLno := offset, start;
    var forwards, forwardsLno := offset, start;
    var current, currentLno := offset, start;
    var i := 0;
    tried := [];
    while true
      invariant 0 <= backwardsLno <= start <= forwardsLno <= nr
      invariant backwards == |Concat(img.lines[..backwardsLno])| && forwards == |Concat(img.lines[..forwardsLno])|
      invariant (currentLno == backwardsLno && current == backwards) || (currentLno == forwardsLno && current == forwards)
      invariant TriedOutwards(start, nr, tried)
      invariant forall k: nat :: k in tried <==> backwardsLno <= k <= forwardsLno && k != currentLno
      invariant forall k: nat | k in tried :: !MatchAt(img, pre, k, atBeginning, atEnd)
      // the search is balanced as far as the ends of the image allow
      invariant i >= 0 && (i % 2 == 0 ==>
        && (forwardsLno - start <= start - backwardsLno || backwardsLno == 0)
        && (start - backwardsLno <= forwardsLno - start || forwardsLno == nr))
      invariant i % 2 == 1 ==>
        && (forwardsLno - start <= start - backwardsLno + 1 || backwardsLno == 0)
        && (start - backwardsLno + 1 <= forwardsLno - start || forwardsLno == nr)
      invariant forall k: nat | k <= nr && k != currentLno :: Nearer(start, k, currentLno) <==> backwardsLno <= k <= forwardsLno
      decreases nr - (forwardsLno - backwardsLno)
    {
      var b := MatchFragment(img, pre, current, currentLno, atBeginning, atEnd);
      TryNext(start, nr, tried, currentLno);
      tried := tried + [currentLno];
      if b {
        return currentLno, tried;
      }
      if backwardsLno == 0 && forwardsLno == nr {
        return -1, tried;
      }
      // an exhausted direction gives its turn away
      if (i % 2 == 1 && backwardsLno == 0) || (i % 2 == 0 && forwardsLno == nr) {
        i := i + 1;
      }
      if i % 2 == 1 {
        backwardsLno := backwardsLno - 1;
        OffsetStep(img.lines, backwardsLno);
        backwards := backwards - img.line[backwardsLno].len;
        current, currentLno := backwards, backwardsLno;
      } else {
        OffsetStep(img.lines, forwardsLno);
        forwards := forwards + img.line[forwardsLno].len;
        forwardsLno := forwardsLno + 1;
        current, currentLno := forwards, forwardsLno;
      }
      i := i + 1;
    }
  }

  lemma OffsetStep(lines: seq<Text>, k: nat)
    requires k < |lines|
    ensures |Concat(lines[..k + 1])| == |Concat(lines[..k])| + |lines[k]|
  {
    assert lines[..k + 1][..k] == lines[..k];
  }
}
