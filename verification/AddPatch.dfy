/**
 Choosing hunks in add-patch.c: counting how far a hunk can be split, splitting it, merging
 what is chosen and renumbering the patch that is emitted.
 */
module AddPatch {
  import opened Image
  import opened Apply

  datatype Header = Header(oldOffset: nat, oldCount: nat, newOffset: nat, newCount: nat)

  datatype Use = Undecided | Skipped | Used

  /** The lines of a hunk are those of the diff from `start` up to `end`. */
  datatype Hunk = Hunk(start: nat, end: nat, splittableInto: nat, delta: int, use: Use, header: Header)

  const NO_HUNK := Hunk(0, 0, 0, 0, Undecided, Header(0, 0, 0, 0))

  predicate IsChange(l: PatchLine) {
    l.first == '-' || l.first == '+'
  }

  /** A line of a hunk; an empty context line may lack its blank. */
  predicate IsHunkLine(l: PatchLine) {
    IsChange(l) || l.first == ' ' || (l.first == '\n' && l.text == "\n")
  }

  /** normalize_marker */
  function Marker(l: PatchLine): char {
    if l.first == '\n' then ' ' else l.first
  }

  ghost predicate HunkLines(lines: seq<PatchLine>) {
    forall i | 0 <= i < |lines| :: IsHunkLine(lines[i])
  }

  ghost function Old(lines: seq<PatchLine>): nat {
    |OldLines(lines, false)|
  }

  ghost function New(lines: seq<PatchLine>): nat {
    |NewLines(lines, false)|
  }

  /** The number of maximal runs of changed lines. */
  ghost function Groups(lines: seq<PatchLine>): nat {
    if lines == [] then 0
    else
      var last := |lines| - 1;
      Groups(lines[..last]) + if IsChange(lines[last]) && (last == 0 || !IsChange(lines[last - 1])) then 1 else 0
  }

  lemma GroupStep(plain: seq<PatchLine>, s: nat, k: nat)
    requires s <= k < |plain|
    ensures Groups(plain[s..k + 1]) == Groups(plain[s..k]) + if IsChange(plain[k]) && (k == s || !IsChange(plain[k - 1])) then 1 else 0
  {
    assert plain[s..k + 1][..k - s] == plain[s..k];
  }

  /** What one more line adds to the two counts. */
  lemma CountMore(plain: seq<PatchLine>, s: nat, k: nat)
    requires s <= k < |plain| && IsHunkLine(plain[k])
    ensures Old(plain[s..k + 1]) == Old(plain[s..k]) + if plain[k].first == '+' then 0 else 1
    ensures New(plain[s..k + 1]) == New(plain[s..k]) + if plain[k].first == '-' then 0 else 1
  {
    hide Side;
    SideMore(plain, s, k, false, '-');
    SideMore(plain, s, k, false, '+');
  }

  lemma SideMore(plain: seq<PatchLine>, s: nat, k: nat, rev: bool, c: char)
    requires s <= k < |plain|
    ensures Side(plain[s..k + 1], rev, c) == Side(plain[s..k], rev, c) + OnSide(plain[k], rev, c)
  {
    var part := plain[s..k + 1];
    assert part[..|part| - 1] == plain[s..k] && part[|part| - 1] == plain[k];
  }

  /** Counts add up over a cut. */
  lemma CountSplit(plain: seq<PatchLine>, s: nat, m: nat, e: nat)
    requires s <= m <= e <= |plain|
    ensures Old(plain[s..e]) == Old(plain[s..m]) + Old(plain[m..e])
    ensures New(plain[s..e]) == New(plain[s..m]) + New(plain[m..e])
  {
    assert plain[s..e] == plain[s..m] + plain[m..e];
    SideAppend(plain[s..m], plain[m..e], false, '-');
    SideAppend(plain[s..m], plain[m..e], false, '+');
  }

  /** Context counts on both sides. */
  lemma CountContext(plain: seq<PatchLine>, s: nat, e: nat)
    requires s <= e <= |plain| && forall i | s <= i < e :: IsHunkLine(plain[i]) && !IsChange(plain[i])
    ensures Old(plain[s..e]) == New(plain[s..e]) == e - s
  {
    ContextSide(plain[s..e], false, '-', '+');
    ContextSide(plain[s..e], false, '+', '-');
  }

  lemma NoLines(plain: seq<PatchLine>, s: nat)
    requires s <= |plain|
    ensures plain[s..s] == [] && Groups([]) == 0 && Old([]) == 0 && New([]) == 0
  {
  }

  // ---------- parsing ----------

  /** The hunk whose header line is line `at`: it reaches up to the next header line. */
  ghost predicate ParsedHunk(plain: seq<PatchLine>, parse: Text -> Header, h: Hunk) {
    && 0 < h.start <= h.end <= |plain| && plain[h.start - 1].first == '@'
    && (forall i | h.start <= i < h.end :: plain[i].first != '@')
    && (h.end < |plain| ==> plain[h.end].first == '@')
    && h.splittableInto == Groups(plain[h.start..h.end])
    && h.header == parse(plain[h.start - 1].text) && h.delta == 0 && h.use == Undecided
  }

  function NextHeader(plain: seq<PatchLine>, p: nat): (e: nat)
    requires p <= |plain|
    ensures p <= e <= |plain| && (e < |plain| ==> plain[e].first == '@') && forall i | p <= i < e :: plain[i].first != '@'
    decreases |plain| - p
  {
    if p == |plain| || plain[p].first == '@' then p else NextHeader(plain, p + 1)
  }

  /** The hunks whose headers are at `p` and later header lines. */
  ghost function HunksFrom(plain: seq<PatchLine>, parse: Text -> Header, p: nat): seq<Hunk>
    decreases |plain| - p
  {
    if p >= |plain| then []
    else
      var e := NextHeader(plain, p + 1);
      [Hunk(p + 1, e, Groups(plain[p + 1..e]), 0, Undecided, parse(plain[p].text))] + HunksFrom(plain, parse, e)
  }

  /** Hunks that are parsed and follow each other are all there are. */
  lemma {:induction false} ParsedAreAll(plain: seq<PatchLine>, parse: Text -> Header, hunk: seq<Hunk>, j: nat, p: nat)
    requires j <= |hunk| && forall k | 0 <= k < |hunk| :: ParsedHunk(plain, parse, hunk[k])
    requires forall k | 0 <= k < |hunk| - 1 :: hunk[k + 1].start == hunk[k].end + 1
    requires if j < |hunk| then hunk[j].start == p + 1 && hunk[|hunk| - 1].end == |plain| else p == |plain|
    ensures HunksFrom(plain, parse, p) == hunk[j..]
    decreases |hunk| - j
  {
    hide Groups;
    if j < |hunk| {
      var h, e := hunk[j], NextHeader(plain, p + 1);
      assert ParsedHunk(plain, parse, h);
      assert e == h.end;
      if j + 1 < |hunk| {
        assert ParsedHunk(plain, parse, hunk[j + 1]);
      }
      ParsedAreAll(plain, parse, hunk, j + 1, e);
      assert hunk[j..] == [h] + hunk[j + 1..];
    }
  }

  /** A hunk as it is parsed can be split, if its header is right. */
  lemma ParsedIsCounted(plain: seq<PatchLine>, parse: Text -> Header, h: Hunk)
    requires ParsedHunk(plain, parse, h) && h.start < h.end
    requires forall i | 0 <= i < |plain| :: plain[i].first == '@' || IsHunkLine(plain[i])
    requires h.header.oldCount == Old(plain[h.start..h.end]) && h.header.newCount == New(plain[h.start..h.end])
    ensures Counted(plain, h)
  {
    hide Groups, Old, New;
  }

  /** The part of parse_diff that follows the head of a file, with complete_file. */
  method ParseDiff(plain: seq<PatchLine>, parse: Text -> Header) returns (hunk: seq<Hunk>)
    requires plain == [] || plain[0].first == '@'
    requires forall i | 0 <= i < |plain| :: plain[i].first == '@' || IsHunkLine(plain[i])
    ensures forall j | 0 <= j < |hunk| :: ParsedHunk(plain, parse, hunk[j])
    ensures hunk == HunksFrom(plain, parse, 0)
    ensures plain != [] ==> hunk != [] && hunk[0].start == 1 && hunk[|hunk| - 1].end == |plain|
    ensures forall j | 0 <= j < |hunk| - 1 :: hunk[j + 1].start == hunk[j].end + 1
  {
    hide Groups, ParsedHunk, Growing;
    hunk := [];
    if plain == [] {
      return;
    }
    // the hunk being read, and the ones before it
    var h := Hunk(1, 1, 0, 0, Undecided, parse(plain[0].text));
    GrowingStarts(plain, parse, 0);
    var marker := '@';
    var p := 1;
    while p < |plain|
      invariant 0 < p <= |plain| && marker == Marker(plain[p - 1]) && h.end == p && Growing(plain, parse, h, p)
      invariant Chained(hunk, h.start)
      invariant forall j | 0 <= j < |hunk| :: ParsedHunk(plain, parse, hunk[j])
    {
      var ch := Marker(plain[p]);
      if ch == '@' {
        if marker == '-' || marker == '+' {
          h := h.(splittableInto := h.splittableInto + 1);
        }
        GrowingEnds(plain, parse, h, p);
        hunk := hunk + [h];
        h := Hunk(p + 1, p + 1, 0, 0, Undecided, parse(plain[p].text));
        GrowingStarts(plain, parse, p);
      } else {
        ghost var was := h;
        if (marker == '-' || marker == '+') && ch == ' ' {
          h := h.(splittableInto := h.splittableInto + 1);
        }
        h := h.(end := p + 1);
        Grows(plain, parse, was, p, h);
      }
      marker := ch;
      p := p + 1;
    }
    if marker == '-' || marker == '+' {
      h := h.(splittableInto := h.splittableInto + 1);
    }
    GrowingEnds(plain, parse, h, p);
    hunk := hunk + [h];
    ParsedAreAll(plain, parse, hunk, 0, 0);
    assert hunk[0..] == hunk;
  }

  /** Header lines are all that lies between hunks. */
  ghost predicate Chained(hunk: seq<Hunk>, next: nat) {
    && (forall j | 0 <= j < |hunk| - 1 :: hunk[j + 1].start == hunk[j].end + 1)
    && if hunk == [] then next == 1 else hunk[0].start == 1 && next == hunk[|hunk| - 1].end + 1
  }

  lemma GrowingStarts(plain: seq<PatchLine>, parse: Text -> Header, p: nat)
    requires p < |plain| && plain[p].first == '@'
    ensures Growing(plain, parse, Hunk(p + 1, p + 1, 0, 0, Undecided, parse(plain[p].text)), p + 1)
  {
    NoLines(plain, p + 1);
  }

  lemma Grows(plain: seq<PatchLine>, parse: Text -> Header, h: Hunk, p: nat, h2: Hunk)
    requires Growing(plain, parse, h, p) && p < |plain| && IsHunkLine(plain[p])
    requires h2 == h.(end := p + 1, splittableInto := h.splittableInto + if IsChange(plain[p - 1]) && !IsChange(plain[p]) then 1 else 0)
    ensures Growing(plain, parse, h2, p + 1)
  {
    hide Groups;
    GroupStep(plain, h.start, p);
  }

  lemma GrowingEnds(plain: seq<PatchLine>, parse: Text -> Header, h: Hunk, p: nat)
    requires 0 < p <= |plain| && (p < |plain| ==> plain[p].first == '@')
    requires var k := if IsChange(plain[p - 1]) then 1 else 0;
      h.splittableInto >= k && Growing(plain, parse, h.(splittableInto := h.splittableInto - k), p)
    ensures ParsedHunk(plain, parse, h)
  {
    hide Groups;
  }

  /** A hunk being read: a group counts once it is over. */
  ghost predicate Growing(plain: seq<PatchLine>, parse: Text -> Header, h: Hunk, p: nat) {
    && 0 < h.start <= h.end == p <= |plain| && plain[h.start - 1].first == '@'
    && (forall i | h.start <= i < h.end :: plain[i].first != '@')
    && h.splittableInto + (if IsChange(plain[p - 1]) then 1 else 0) == Groups(plain[h.start..h.end])
    && h.header == parse(plain[h.start - 1].text) && h.delta == 0 && h.use == Undecided
  }

  // ---------- splitting ----------

  /** The header of a piece of `h` says where its lines are and how many. */
  ghost predicate PieceOk(plain: seq<PatchLine>, h: Hunk, p: Hunk) {
    && h.start <= p.start < p.end <= h.end <= |plain|
    && p.header.oldOffset == h.header.oldOffset + Old(plain[h.start..p.start])
    && p.header.newOffset == h.header.newOffset + New(plain[h.start..p.start])
    && p.header.oldCount == Old(plain[p.start..p.end]) && p.header.newCount == New(plain[p.start..p.end])
    && p.splittableInto == 1 == Groups(plain[p.start..p.end]) && p.use == Undecided
  }

  /** Neighbouring pieces share the context between their groups, and all of it. */
  ghost predicate Shares(plain: seq<PatchLine>, p: Hunk, q: Hunk) {
    && 0 < q.start && p.start < q.start < p.end < q.end <= |plain|
    && (forall i | q.start <= i < p.end :: !IsChange(plain[i]))
    && IsChange(plain[q.start - 1]) && IsChange(plain[p.end])
  }

  /** `ps` is `h` cut into its groups. */
  ghost predicate CutUp(plain: seq<PatchLine>, h: Hunk, ps: seq<Hunk>) {
    && |ps| == h.splittableInto && ps != []
    && (forall j | 0 <= j < |ps| :: PieceOk(plain, h, ps[j]))
    && (forall j | 0 <= j < |ps| - 1 :: Shares(plain, ps[j], ps[j + 1]))
    && ps[0].start == h.start && ps[|ps| - 1].end == h.end
    && ps[0].delta == h.delta && forall j | 0 < j < |ps| :: ps[j].delta == 0
  }

  /** A hunk whose header counts its lines. */
  ghost predicate Counted(plain: seq<PatchLine>, h: Hunk) {
    && h.start < h.end <= |plain| && HunkLines(plain[h.start..h.end])
    && h.header.oldCount == Old(plain[h.start..h.end]) && h.header.newCount == New(plain[h.start..h.end])
    && h.splittableInto == Groups(plain[h.start..h.end])
  }

  /** How far split_hunk has read the piece that starts at `st`. */
  datatype Reading = Before | Pending | InGroup | After(next: nat)

  ghost predicate ReadingOk(plain: seq<PatchLine>, h: Hunk, st: nat, current: nat, r: Reading, done: nat,
                            marker: char, oldCount: nat, newCount: nat, context: nat)
  {
    && h.start <= st <= current <= h.end <= |plain|
    && match r
      case Before =>
        && st == h.start && done == 0 && oldCount == newCount == 0 && context == current - st
        && (forall i | st <= i < current :: !IsChange(plain[i]))
        && Groups(plain[h.start..current]) == 0 && marker == (if current == st then '\0' else ' ')
      case Pending =>
        && st < current < h.end && IsChange(plain[current]) && !IsChange(plain[current - 1]) && marker == plain[current].first
        && oldCount == Old(plain[st..current]) && newCount == New(plain[st..current]) && context == 0
        && Groups(plain[h.start..current]) == done
      case InGroup =>
        && st < current && IsChange(plain[current - 1]) && marker == plain[current - 1].first
        && oldCount == Old(plain[st..current]) && newCount == New(plain[st..current]) && context == 0
        && Groups(plain[h.start..current]) == done + 1
      case After(t) =>
        && st < t < current && IsChange(plain[t - 1]) && marker == ' '
        && (forall i | t <= i < current :: !IsChange(plain[i]))
        && oldCount == Old(plain[st..t]) && newCount == New(plain[st..t]) && context == current - t
        && Groups(plain[h.start..current]) == done + 1
  }

  lemma {:induction false} GroupSplit(plain: seq<PatchLine>, s: nat, m: nat, e: nat)
    requires s <= m <= e <= |plain| && (s < m < e ==> !(IsChange(plain[m - 1]) && IsChange(plain[m])))
    ensures Groups(plain[s..e]) == Groups(plain[s..m]) + Groups(plain[m..e])
  {
    hide Groups;
    if m == e || m == s {
      NoLines(plain, m);
    } else {
      GroupStep(plain, s, e - 1);
      GroupStep(plain, m, e - 1);
      GroupSplit(plain, s, m, e - 1);
    }
  }

  lemma {:induction false} NoGroup(plain: seq<PatchLine>, s: nat, e: nat)
    requires s <= e <= |plain| && forall i | s <= i < e :: !IsChange(plain[i])
    ensures Groups(plain[s..e]) == 0
  {
    if s == e {
      NoLines(plain, s);
    } else {
      GroupStep(plain, s, e - 1);
      NoGroup(plain, s, e - 1);
    }
  }

  lemma LineOf(plain: seq<PatchLine>, h: Hunk, i: nat)
    requires Counted(plain, h) && h.start <= i < h.end
    ensures IsHunkLine(plain[i])
  {
    assert plain[h.start..h.end][i - h.start] == plain[i];
  }

  /** Reading one more line of the piece at hand. */
  lemma ReadLine(plain: seq<PatchLine>, h: Hunk, st: nat, current: nat, r: Reading, done: nat, marker: char,
                 oldCount: nat, newCount: nat, context: nat) returns (r2: Reading)
    requires Counted(plain, h) && ReadingOk(plain, h, st, current, r, done, marker, oldCount, newCount, context)
    requires current < h.end && !(r.After? && IsChange(plain[current]))
    ensures r2 == if IsChange(plain[current]) then InGroup else if r.InGroup? then After(current) else r
    ensures var c := Marker(plain[current]);
      var base := if r.Before? && IsChange(plain[current]) then context else 0;
      ReadingOk(plain, h, st, current + 1, r2, done, c, oldCount + base + (if c == '-' then 1 else 0), newCount + base + (if c == '+' then 1 else 0),
                if c != ' ' then 0 else if r.InGroup? then 1 else context + 1)
  {
    hide Groups, Side;
    GroupStep(plain, h.start, current);
    forall i | st <= i <= current ensures IsHunkLine(plain[i]) {
      LineOf(plain, h, i);
    }
    CountMore(plain, st, current);
    if r.Before? {
      CountContext(plain, st, current);
    }
    r2 := if IsChange(plain[current]) then InGroup else if r.InGroup? then After(current) else r;
  }

  lemma ReadingMeans(plain: seq<PatchLine>, h: Hunk, st: nat, current: nat, r: Reading, done: nat, marker: char,
                     oldCount: nat, newCount: nat, context: nat)
    requires ReadingOk(plain, h, st, current, r, done, marker, oldCount, newCount, context)
    ensures r.Before? ==> oldCount == newCount == 0 && (marker == ' ' || (marker == '\0' && context == 0))
    ensures r.After? <==> (marker == ' ' && !r.Before?)
    ensures r.InGroup? || r.Pending? ==> (marker == '-' || marker == '+') && context == 0
    ensures r.Pending? ==> current < |plain| && IsChange(plain[current])
    ensures current <= h.end <= |plain|
  {
    hide Groups, Side;
  }

  /** Fewer pieces are complete than there are groups, so there is more to read. */
  lemma InBounds(plain: seq<PatchLine>, h: Hunk, st: nat, current: nat, r: Reading, done: nat, marker: char,
                 oldCount: nat, newCount: nat, context: nat)
    requires Counted(plain, h) && ReadingOk(plain, h, st, current, r, done, marker, oldCount, newCount, context)
    requires done + 1 < h.splittableInto
    ensures current < h.end && IsHunkLine(plain[current])
  {
    hide Groups, Side;
    if current < h.end {
      LineOf(plain, h, current);
    }
  }

  /** The pieces that are complete, and the one that starts after them. */
  ghost predicate PiecesOk(plain: seq<PatchLine>, h: Hunk, ps: seq<Hunk>, piece: Hunk, current: nat) {
    && h.start <= piece.start <= current <= h.end <= |plain|
    && (forall j | 0 <= j < |ps| :: PieceOk(plain, h, ps[j]))
    && (forall j | 0 <= j < |ps| - 1 :: Shares(plain, ps[j], ps[j + 1]))
    && (if ps == [] then piece.start == h.start else ps[0].start == h.start && Shares(plain, ps[|ps| - 1], piece.(end := h.end)))
    && (ps != [] ==> ps[|ps| - 1].end <= current && ps[0].delta == h.delta && !IsChange(plain[piece.start]))
    && (forall j | 0 < j < |ps| :: ps[j].delta == 0)
    && piece.delta == (if ps == [] then h.delta else 0)
    && Groups(plain[h.start..piece.start]) == |ps|
    && piece.header.oldOffset == h.header.oldOffset + Old(plain[h.start..piece.start])
    && piece.header.newOffset == h.header.newOffset + New(plain[h.start..piece.start])
    && piece.splittableInto == 1 && piece.use == Undecided
  }

  /** A changed line after the context closes a piece and opens the next one. */
  lemma ClosePiece(plain: seq<PatchLine>, h: Hunk, ps: seq<Hunk>, piece: Hunk, current: nat, next: nat, marker: char, context: nat,
                   closed: Hunk, begun: Hunk)
    requires Counted(plain, h) && PiecesOk(plain, h, ps, piece, current) && current < h.end && IsChange(plain[current])
    requires ps != [] ==> ps[|ps| - 1].end < current
    requires ReadingOk(plain, h, piece.start, current, After(next), |ps|, marker, piece.header.oldCount, piece.header.newCount, context)
    requires closed == piece.(end := current, header := piece.header.(oldCount := piece.header.oldCount + context,
                                                                      newCount := piece.header.newCount + context))
    requires begun.start == next && begun.delta == 0 && begun.splittableInto == 1 && begun.use == Undecided
    requires begun.header == Header(piece.header.oldOffset + piece.header.oldCount, context,
                                     piece.header.newOffset + piece.header.newCount, context)
    ensures PiecesOk(plain, h, ps + [closed], begun, current)
    ensures ReadingOk(plain, h, next, current, Pending, |ps| + 1, plain[current].first, context, context, 0)
  {
    hide Groups, Old, New, Counted, PieceOk;
    forall i | next <= i < current ensures IsHunkLine(plain[i]) {
      LineOf(plain, h, i);
    }
    ClosedCounts(plain, h.start, piece.start, next, current, |ps|);
    assert PieceOk(plain, h, closed) by {
      IsPiece(plain, h, closed);
    }
    assert Shares(plain, closed, begun.(end := h.end));
  }

  lemma IsPiece(plain: seq<PatchLine>, h: Hunk, p: Hunk)
    requires h.start <= p.start < p.end <= h.end <= |plain|
    requires p.header.oldOffset == h.header.oldOffset + Old(plain[h.start..p.start])
    requires p.header.newOffset == h.header.newOffset + New(plain[h.start..p.start])
    requires p.header.oldCount == Old(plain[p.start..p.end]) && p.header.newCount == New(plain[p.start..p.end])
    requires p.splittableInto == 1 == Groups(plain[p.start..p.end]) && p.use == Undecided
    ensures PieceOk(plain, h, p)
  {
  }

  lemma ClosedCounts(plain: seq<PatchLine>, s: nat, st: nat, next: nat, current: nat, done: nat)
    requires s <= st < next < current <= |plain| && forall i | next <= i < current :: IsHunkLine(plain[i]) && !IsChange(plain[i])
    requires Groups(plain[s..current]) == done + 1 && Groups(plain[s..st]) == done && (s < st ==> !IsChange(plain[st]))
    ensures Old(plain[next..current]) == New(plain[next..current]) == current - next
    ensures Old(plain[st..current]) == Old(plain[st..next]) + current - next && New(plain[st..current]) == New(plain[st..next]) + current - next
    ensures Old(plain[s..next]) == Old(plain[s..st]) + Old(plain[st..next]) && New(plain[s..next]) == New(plain[s..st]) + New(plain[st..next])
    ensures Groups(plain[s..next]) == done + 1 && Groups(plain[st..current]) == 1
  {
    hide Groups, Old, New;
    CountContext(plain, next, current);
    CountSplit(plain, st, next, current);
    CountSplit(plain, s, st, next);
    NoGroup(plain, next, current);
    GroupSplit(plain, s, next, current);
    GroupSplit(plain, s, st, current);
  }

  /** The last piece gets the rest. */
  lemma LastPiece(plain: seq<PatchLine>, h: Hunk, ps: seq<Hunk>, piece: Hunk, current: nat, last: Hunk)
    requires Counted(plain, h) && PiecesOk(plain, h, ps, piece, current) && ps != [] && |ps| == h.splittableInto - 1
    requires h.header.oldCount >= piece.header.oldOffset - h.header.oldOffset
    requires h.header.newCount >= piece.header.newOffset - h.header.newOffset
    requires last == piece.(end := h.end, header := piece.header.(
      oldCount := h.header.oldCount - (piece.header.oldOffset - h.header.oldOffset),
      newCount := h.header.newCount - (piece.header.newOffset - h.header.newOffset)))
    ensures CutUp(plain, h, ps + [last])
  {
    hide Groups, Old, New, PieceOk;
    CountSplit(plain, h.start, piece.start, h.end);
    GroupSplit(plain, h.start, piece.start, h.end);
    assert PieceOk(plain, h, last) by {
      IsPiece(plain, h, last);
    }
  }

  /** What is left of the header once the pieces before this one are taken out. */
  ghost predicate RemainingOk(h: Hunk, piece: Hunk, remaining: Header) {
    && remaining.oldOffset == piece.header.oldOffset && remaining.newOffset == piece.header.newOffset
    && remaining.oldCount + piece.header.oldOffset == h.header.oldCount + h.header.oldOffset
    && remaining.newCount + piece.header.newOffset == h.header.newCount + h.header.newOffset
  }

  lemma SplitStarts(plain: seq<PatchLine>, h: Hunk, piece: Hunk)
    requires Counted(plain, h)
    requires piece == h.(splittableInto := 1, use := Undecided, header := h.header.(oldCount := 0, newCount := 0))
    ensures PiecesOk(plain, h, [], piece, h.start) && RemainingOk(h, piece, h.header)
    ensures ReadingOk(plain, h, h.start, h.start, Before, 0, '\0', 0, 0, 0)
  {
    NoLines(plain, h.start);
  }

  lemma EnoughRemains(plain: seq<PatchLine>, h: Hunk, ps: seq<Hunk>, piece: Hunk, current: nat, next: nat, marker: char, context: nat, remaining: Header)
    requires Counted(plain, h) && PiecesOk(plain, h, ps, piece, current) && RemainingOk(h, piece, remaining)
    requires ReadingOk(plain, h, piece.start, current, After(next), |ps|, marker, piece.header.oldCount, piece.header.newCount, context)
    ensures remaining.oldCount >= piece.header.oldCount && remaining.newCount >= piece.header.newCount
  {
    hide Groups, Side;
    CountSplit(plain, h.start, piece.start, h.end);
    CountSplit(plain, piece.start, next, h.end);
  }

  lemma PiecesLater(plain: seq<PatchLine>, h: Hunk, ps: seq<Hunk>, piece: Hunk, current: nat, piece2: Hunk)
    requires PiecesOk(plain, h, ps, piece, current) && current < h.end
    requires piece2 == piece.(header := piece.header.(oldCount := piece2.header.oldCount, newCount := piece2.header.newCount))
    ensures PiecesOk(plain, h, ps, piece2, current + 1)
    ensures ps != [] ==> ps[|ps| - 1].end <= current
  {
    hide Groups, Side, PieceOk;
  }

  class FileDiff {
    const plain: seq<PatchLine>
    var hunk: seq<Hunk>

    constructor (lines: seq<PatchLine>, hunks: seq<Hunk>)
      ensures plain == lines && hunk == hunks
    {
      plain, hunk := lines, hunks;
    }

    /** split_hunk */
    method SplitHunk(index: nat)
      requires index < |hunk| && Counted(plain, hunk[index])
      modifies this`hunk
      ensures old(hunk[index]).splittableInto < 2 ==> hunk == old(hunk)
      ensures old(hunk[index]).splittableInto >= 2 ==> exists ps ::
        CutUp(plain, old(hunk[index]), ps) && hunk == old(hunk)[..index] + ps + old(hunk)[index + 1..]
    {
      hide Groups, Side, Counted, PiecesOk, PieceOk, Shares, CutUp, ReadingOk;
      var h := hunk[index];
      if h.splittableInto < 2 {
        return;
      }
      var left := h.splittableInto;
      var remaining := h.header;
      // the pieces so far, the one being read, and the one after it
      var pieces: seq<Hunk> := [];
      var piece := h.(splittableInto := 1, use := Undecided, header := h.header.(oldCount := 0, newCount := 0));
      var next := NO_HUNK;
      var current: nat, marker, context: nat, first := h.start, '\0', 0, true;
      ghost var r := Before;
      SplitStarts(plain, h, piece);
      while left > 1
        invariant 1 <= left <= h.splittableInto && |pieces| == h.splittableInto - left
        invariant PiecesOk(plain, h, pieces, piece, current) && RemainingOk(h, piece, remaining)
        invariant ReadingOk(plain, h, piece.start, current, r, |pieces|, marker, piece.header.oldCount, piece.header.newCount, context)
        invariant (r.Before? ==> first) && (r.After? ==> !first) && next == (if r.After? then NO_HUNK.(start := r.next) else NO_HUNK)
        invariant pieces == [] || r.Pending? || pieces[|pieces| - 1].end < current
        invariant hunk == old(hunk)
        decreases left, h.end - current
      {
        ReadingMeans(plain, h, piece.start, current, r, |pieces|, marker, piece.header.oldCount, piece.header.newCount, context);
        // a group is still to come, so the buffer is not overrun
        InBounds(plain, h, piece.start, current, r, |pieces|, marker, piece.header.oldCount, piece.header.newCount, context);
        ghost var was, r2 := piece, r;
        if !(r.After? && IsChange(plain[current])) {
          r2 := ReadLine(plain, h, piece.start, current, r, |pieces|, marker, piece.header.oldCount, piece.header.newCount, context);
        }
        var ch := Marker(plain[current]);
        if (marker == '-' || marker == '+') && ch == ' ' {
          first := false;
          next := next.(start := current);
          context := 0;
        }
        if marker != ' ' || (ch != '-' && ch != '+') || first {
          if marker == ' ' && (ch == '-' || ch == '+') {
            // the first group; the counts are not off
            assert piece.header.oldCount == 0 && piece.header.newCount == 0;
            piece := piece.(header := piece.header.(oldCount := context, newCount := context));
            context, first := 0, false;
          }
          if ch == ' ' {
            context := context + 1;
          } else if ch == '-' {
            piece := piece.(header := piece.header.(oldCount := piece.header.oldCount + 1));
          } else {
            assert ch == '+';
            piece := piece.(header := piece.header.(newCount := piece.header.newCount + 1));
          }
          r := r2;
          PiecesLater(plain, h, pieces, was, current, piece);
          marker := ch;
          current := current + 1;
        } else {
          EnoughRemains(plain, h, pieces, piece, current, r.next, marker, context, remaining);
          remaining := Header(remaining.oldOffset + piece.header.oldCount, remaining.oldCount - piece.header.oldCount,
                              remaining.newOffset + piece.header.newCount, remaining.newCount - piece.header.newCount);
          next := next.(header := Header(piece.header.oldOffset + piece.header.oldCount, context,
                                         piece.header.newOffset + piece.header.newCount, context),
                        splittableInto := 1, use := Undecided);
          piece := piece.(end := current, header := piece.header.(oldCount := piece.header.oldCount + context,
                                                                  newCount := piece.header.newCount + context));
          ClosePiece(plain, h, pieces, was, current, r.next, marker, context, piece, next);
          pieces := pieces + [piece];
          piece, next, r := next, NO_HUNK, Pending;
          context, left := 0, left - 1;
          marker := ch;
        }
      }
      // the counts are not off
      assert piece.header.oldOffset == remaining.oldOffset && piece.header.newOffset == remaining.newOffset;
      ghost var unfinished := piece;
      piece := piece.(end := h.end, header := piece.header.(oldCount := remaining.oldCount, newCount := remaining.newCount));
      LastPiece(plain, h, pieces, unfinished, current, piece);
      hunk := hunk[..index] + (pieces + [piece]) + hunk[index + 1..];
    }
  }
}
