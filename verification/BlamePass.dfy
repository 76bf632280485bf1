/**
 Passing blame from a target to its parent in blame.c.  A list of blame entries is a
 sequence; the splices through `dstq` and `srcq` become reassignments of the three lists
 of `Pass`.
 */
module BlamePass {
  import opened Wrappers

  datatype Suspect = Target | Parent

  /** Lines [lno, lno + numLines) of the final image, suspected to be lines sLno... of the suspect. */
  datatype Entry = Entry(lno: int, sLno: int, numLines: int, suspect: Suspect, ignored: bool, unblamable: bool, score: nat) {
    ghost predicate Covers(l: int, s: int) {
      lno <= l < lno + numLines && s == sLno + (l - lno)
    }
  }

  // ---------- what a list of entries says ----------

  /** How many entries blame final line `l` on line `s`. */
  ghost function Count(list: seq<Entry>, l: int, s: int): nat {
    if list == [] then 0 else (if list[0].Covers(l, s) then 1 else 0) + Count(list[1..], l, s)
  }

  /** How many entries contain final line `l`. */
  ghost function Holders(list: seq<Entry>, l: int): nat {
    if list == [] then 0 else (if list[0].lno <= l < list[0].lno + list[0].numLines then 1 else 0) + Holders(list[1..], l)
  }

  ghost predicate Sorted(list: seq<Entry>) {
    forall i, j | 0 <= i < j < |list| :: list[i].sLno <= list[j].sLno
  }

  /** Every entry is nonempty, is suspected of `suspect`, and starts in [from, to). */
  ghost predicate Within(list: seq<Entry>, suspect: Suspect, from: int, to: int) {
    forall e | e in list :: e.numLines > 0 && e.suspect == suspect && from <= e.sLno < to
  }

  lemma {:induction false} CountConcat(x: seq<Entry>, y: seq<Entry>, l: int, s: int)
    ensures Count(x + y, l, s) == Count(x, l, s) + Count(y, l, s)
    ensures Holders(x + y, l) == Holders(x, l) + Holders(y, l)
  {
    if x == [] {
      assert x + y == y;
    } else {
      assert (x + y)[1..] == x[1..] + y;
      CountConcat(x[1..], y, l, s);
    }
  }

  lemma {:induction false} CountBelow(list: seq<Entry>, l: int, s: int)
    requires forall e | e in list :: s < e.sLno
    ensures Count(list, l, s) == 0
  {
    if list != [] {
      CountBelow(list[1..], l, s);
    }
  }

  // ---------- reversing ----------

  ghost function Reversed(list: seq<Entry>): seq<Entry> {
    if list == [] then [] else Reversed(list[1..]) + [list[0]]
  }

  /** reverse_blame: the list `head` reversed, in front of `tail`. */
  method ReverseBlame(head: seq<Entry>, tail: seq<Entry>) returns (r: seq<Entry>)
    ensures r == Reversed(head) + tail
  {
    var rest := head;
    r := tail;
    while rest != []
      invariant Reversed(head) + tail == Reversed(rest) + r
    {
      r := [rest[0]] + r;
      rest := rest[1..];
    }
  }

  // ---------- splitting ----------

  /** split_blame_at: `len` lines stay with the entry, the remainder becomes a new one. */
  function SplitBlameAt(e: Entry, len: int, suspect: Suspect): (r: (Entry, Entry))
    requires 0 < len < e.numLines
    ensures forall l, s :: r.0.Covers(l, s) <==> e.Covers(l, s) && s < e.sLno + len
    ensures forall l, s :: r.1.Covers(l, s) <==> e.Covers(l, s) && s >= e.sLno + len
  {
    (e.(numLines := len, score := 0),
     Entry(e.lno + len, e.sLno + len, e.numLines - len, suspect, e.ignored, e.unblamable, 0))
  }

  // ---------- what one chunk does to the entries in front of it ----------

  /** The part of `e` before line `at`, and the part from there on, if any. */
  ghost function Front(e: Entry, at: int): Entry
    requires e.sLno < at
  {
    if e.sLno + e.numLines > at then e.(numLines := at - e.sLno, score := 0) else e
  }

  ghost function Back(e: Entry, at: int): seq<Entry>
    requires e.sLno < at
  {
    if e.sLno + e.numLines > at
    then [Entry(e.lno + (at - e.sLno), at, e.numLines - (at - e.sLno), e.suspect, e.ignored, e.unblamable, 0)]
    else []
  }

  ghost function Fronts(list: seq<Entry>, at: int): seq<Entry>
    requires forall e | e in list :: e.sLno < at
  {
    seq(|list|, i requires 0 <= i < |list| => Front(list[i], at))
  }

  ghost function Backs(list: seq<Entry>, at: int): seq<Entry>
    requires forall e | e in list :: e.sLno < at
  {
    if list == [] then [] else Backs(list[..|list| - 1], at) + Back(list[|list| - 1], at)
  }

  /** The same entries on the parent's side, `offset` lines further. */
  ghost function Moved(list: seq<Entry>, offset: int): seq<Entry> {
    seq(|list|, i requires 0 <= i < |list| => list[i].(suspect := Parent, sLno := list[i].sLno + offset))
  }

  lemma {:induction false} CountMoved(list: seq<Entry>, offset: int, l: int, p: int)
    ensures Count(Moved(list, offset), l, p) == Count(list, l, p - offset)
    ensures Holders(Moved(list, offset), l) == Holders(list, l)
  {
    if list != [] {
      assert Moved(list, offset)[1..] == Moved(list[1..], offset);
      CountMoved(list[1..], offset, l, p);
    }
  }

  lemma CountOne(e: Entry, l: int, s: int)
    ensures Count([e], l, s) == if e.Covers(l, s) then 1 else 0
    ensures Holders([e], l) == if e.lno <= l < e.lno + e.numLines then 1 else 0
  {
    assert [e][1..] == [];
  }

  lemma CountCutOne(e: Entry, at: int, l: int, s: int)
    requires e.sLno < at
    ensures Count([Front(e, at)], l, s) == if s < at then Count([e], l, s) else 0
    ensures Count(Back(e, at), l, s) == if s >= at then Count([e], l, s) else 0
    ensures Holders([Front(e, at)], l) + Holders(Back(e, at), l) == Holders([e], l)
  {
    CountOne(e, l, s);
    CountOne(Front(e, at), l, s);
    if Back(e, at) != [] {
      CountOne(Back(e, at)[0], l, s);
    }
  }

  /** Cutting at `at` loses no line and moves none. */
  lemma {:induction false} CountCut(list: seq<Entry>, at: int, l: int, s: int)
    requires forall e | e in list :: e.sLno < at
    ensures Count(Fronts(list, at), l, s) == if s < at then Count(list, l, s) else 0
    ensures Count(Backs(list, at), l, s) == if s >= at then Count(list, l, s) else 0
    ensures Holders(Fronts(list, at), l) + Holders(Backs(list, at), l) == Holders(list, l)
  {
    if list != [] {
      var init, e := list[..|list| - 1], list[|list| - 1];
      CountCut(init, at, l, s);
      assert list == init + [e];
      CountConcat(init, [e], l, s);
      assert Fronts(list, at) == Fronts(init, at) + [Front(e, at)];
      CountConcat(Fronts(init, at), [Front(e, at)], l, s);
      CountConcat(Backs(init, at), Back(e, at), l, s);
      CountCutOne(e, at, l, s);
    }
  }

  lemma {:induction false} BacksShape(list: seq<Entry>, at: int, from: int, to: int, suspect: Suspect)
    requires Within(list, suspect, from, at) && forall e | e in list :: e.sLno + e.numLines <= to
    ensures forall e | e in Backs(list, at) ::
      e.sLno == at && e.numLines > 0 && e.suspect == suspect && e.sLno + e.numLines <= to
  {
    if list != [] {
      var init, e := list[..|list| - 1], list[|list| - 1];
      BacksShape(init, at, from, to, suspect);
      assert e in list;
    }
  }

  // ---------- edit scripts ----------

  /** One hunk of a diff from the parent (A) to the target (B). */
  datatype Hunk = Hunk(startA: int, countA: int, startB: int, countB: int)

  function PosA(script: seq<Hunk>, i: nat): int
    requires i <= |script|
  {
    if i == 0 then 0 else script[i - 1].startA + script[i - 1].countA
  }

  function PosB(script: seq<Hunk>, i: nat): int
    requires i <= |script|
  {
    if i == 0 then 0 else script[i - 1].startB + script[i - 1].countB
  }

  /** Hunks come in order; this is the diff machinery's promise. */
  ghost predicate InOrder(script: seq<Hunk>) {
    forall i | 0 <= i < |script| ::
      script[i].countA >= 0 && script[i].countB >= 0 && PosA(script, i) <= script[i].startA && PosB(script, i) <= script[i].startB
  }

  /** Between two hunks both sides advance equally; this is what blame_chunk_cb checks. */
  ghost predicate Aligned(script: seq<Hunk>) {
    forall i | 0 <= i < |script| :: script[i].startA - script[i].startB == PosA(script, i) - PosB(script, i)
  }

  /** The parent line that target line `s` comes from; None inside a hunk. */
  ghost function Align(script: seq<Hunk>, i: nat, s: int): Option<int>
    requires i <= |script|
    decreases |script| - i
  {
    if i == |script| || s < script[i].startB then Some(s - PosB(script, i) + PosA(script, i))
    else if s < script[i].startB + script[i].countB then None
    else Align(script, i + 1, s)
  }

  /** The same script read from the target to the parent. */
  ghost function Swapped(script: seq<Hunk>): seq<Hunk> {
    seq(|script|, i requires 0 <= i < |script| =>
      Hunk(script[i].startB, script[i].countB, script[i].startA, script[i].countA))
  }

  /** The target line that parent line `p` became. */
  ghost function AlignBack(script: seq<Hunk>, p: int): Option<int> {
    Align(Swapped(script), 0, p)
  }

  lemma {:induction false} PosBMonotone(script: seq<Hunk>, i: nat, j: nat)
    requires InOrder(script) && i <= j <= |script|
    ensures PosB(script, i) <= PosB(script, j)
  {
    if i < j {
      PosBMonotone(script, i, j - 1);
    }
  }

  lemma {:induction false} AlignSkips(script: seq<Hunk>, i: nat, s: int)
    requires InOrder(script) && i <= |script| && (i > 0 ==> PosB(script, i) <= s)
    ensures Align(script, 0, s) == Align(script, i, s)
  {
    if i > 0 {
      PosBMonotone(script, i - 1, i);
      AlignSkips(script, i - 1, s);
    }
  }

  lemma SwappedPos(script: seq<Hunk>, i: nat)
    requires i <= |script|
    ensures PosA(Swapped(script), i) == PosB(script, i) && PosB(Swapped(script), i) == PosA(script, i)
  {
  }

  lemma SwappedOk(script: seq<Hunk>)
    requires InOrder(script) && Aligned(script)
    ensures InOrder(Swapped(script)) && Aligned(Swapped(script))
  {
    var t := Swapped(script);
    forall i | 0 <= i < |t|
      ensures t[i].countA >= 0 && t[i].countB >= 0 && PosA(t, i) <= t[i].startA && PosB(t, i) <= t[i].startB
      ensures t[i].startA - t[i].startB == PosA(t, i) - PosB(t, i)
    {
      SwappedPos(script, i);
      assert script[i].countA >= 0;
      assert script[i].startA - script[i].startB == PosA(script, i) - PosB(script, i);
    }
  }

  /** Two files that the script turns into each other agree outside its hunks. */
  ghost predicate Edits<T>(script: seq<Hunk>, a: seq<T>, b: seq<T>) {
    && InOrder(script) && Aligned(script)
    && PosA(script, |script|) <= |a| && PosB(script, |script|) <= |b|
    && |a| - PosA(script, |script|) == |b| - PosB(script, |script|)
    && forall i, k | 0 <= i <= |script| && 0 <= k < (if i < |script| then script[i].startB else |b|) - PosB(script, i) ::
         Common(script, a, b, i, k)
  }

  ghost predicate Common<T>(script: seq<Hunk>, a: seq<T>, b: seq<T>, i: nat, k: nat)
    requires i <= |script|
  {
    && 0 <= PosB(script, i) + k < |b| && 0 <= PosA(script, i) + k < |a|
    && b[PosB(script, i) + k] == a[PosA(script, i) + k]
  }

  /** Alignment pairs equal lines, and goes both ways. */
  lemma {:induction false} AlignedLinesAreEqual<T>(script: seq<Hunk>, a: seq<T>, b: seq<T>, i: nat, s: int)
    requires Edits(script, a, b) && i <= |script| && 0 <= s < |b| && PosB(script, i) <= s && Align(script, i, s).Some?
    ensures 0 <= Align(script, i, s).value < |a| && a[Align(script, i, s).value] == b[s]
    decreases |script| - i
  {
    hide PosA, PosB, InOrder, Aligned;
    if i == |script| || s < script[i].startB {
      assert Common(script, a, b, i, s - PosB(script, i));
    } else {
      NextPos(script, i);
      AlignedLinesAreEqual(script, a, b, i + 1, s);
    }
  }

  lemma {:induction false} AlignBackInverts(script: seq<Hunk>, i: nat, s: int)
    requires InOrder(script) && Aligned(script) && i <= |script| && PosB(script, i) <= s && Align(script, i, s).Some?
    ensures PosA(script, i) <= Align(script, i, s).value
    ensures Align(Swapped(script), i, Align(script, i, s).value) == Some(s)
    decreases |script| - i
  {
    hide Swapped, PosA, PosB;
    var p := Align(script, i, s).value;
    SwappedPos(script, i);
    if i < |script| {
      assert script[i].countA >= 0 && script[i].countB >= 0;
      assert script[i].startA - script[i].startB == PosA(script, i) - PosB(script, i);
      SwappedAt(script, i);
      if s >= script[i].startB {
        NextPos(script, i);
        AlignBackInverts(script, i + 1, s);
      }
    } else {
      SwappedLength(script);
    }
  }

  lemma SwappedLength(script: seq<Hunk>)
    ensures |Swapped(script)| == |script|
  {
  }

  lemma SwappedAt(script: seq<Hunk>, i: nat)
    requires i < |script|
    ensures |Swapped(script)| == |script|
    ensures Swapped(script)[i] == Hunk(script[i].startB, script[i].countB, script[i].startA, script[i].countA)
  {
  }

  lemma NextPos(script: seq<Hunk>, i: nat)
    requires i < |script|
    ensures PosA(script, i + 1) == script[i].startA + script[i].countA
    ensures PosB(script, i + 1) == script[i].startB + script[i].countB
  {
  }

  // ---------- one chunk ----------

  /** The lists that blame_chunk splices; `src` is the unprocessed rest of the target's list. */
  class Pass {
    var dst: seq<Entry>
    var kept: seq<Entry>
    var src: seq<Entry>
    var offset: int  // parent line minus target line behind the last hunk

    /** Everything before target line `posB` and parent line `posA` is decided. */
    ghost predicate Valid(posA: int, posB: int)
      reads this
    {
      && Sorted(dst) && Within(dst, Parent, 0, posA + 1)
      && Sorted(kept) && Within(kept, Target, 0, posB)
      && Sorted(src) && Within(src, Target, posB, INT_MAX)
      && forall e | e in src :: e.sLno + e.numLines <= INT_MAX
    }

    constructor (suspects: seq<Entry>)
      ensures dst == [] && kept == [] && src == suspects && offset == 0
    {
      dst, kept, src, offset := [], [], suspects, 0;
    }

    /**
     First loop of blame_chunk: entries that start before `at` go to the parent, what reaches
     beyond `at` is cut off and stays.  `n` is how many entries that is.
     */
    static method BlameBefore(list: seq<Entry>, at: int, offset: int)
      returns (samep: seq<Entry>, diffp: seq<Entry>, rest: seq<Entry>, ghost n: nat)
      requires forall e | e in list :: e.numLines > 0
      ensures n <= |list| && rest == list[n..] && (rest != [] ==> rest[0].sLno >= at)
      ensures forall e | e in list[..n] :: e.sLno < at
      ensures Reversed(samep) == Moved(Fronts(list[..n], at), offset) && Reversed(diffp) == Backs(list[..n], at)
    {
      CutNothing(at, offset);
      hide Fronts, Backs, Moved;
      samep, diffp, rest, n := [], [], list, 0;
      while rest != [] && rest[0].sLno < at
        invariant n <= |list| && rest == list[n..]
        invariant forall e | e in list[..n] :: e.sLno < at
        invariant Reversed(samep) == Moved(Fronts(list[..n], at), offset)
        invariant Reversed(diffp) == Backs(list[..n], at)
      {
        var e := rest[0];
        assert e in list;
        CutAppend(list, n, at);
        if e.sLno + e.numLines > at {
          var halves := SplitBlameAt(e, at - e.sLno, e.suspect);
          diffp := [halves.1] + diffp;
          e := halves.0;
        }
        MovedAppend(Fronts(list[..n], at), e, offset);
        e := e.(suspect := Parent, sLno := e.sLno + offset);
        samep := [e] + samep;
        rest := rest[1..];
        n := n + 1;
      }
    }

    static lemma CutNothing(at: int, offset: int)
      ensures Fronts([], at) == [] && Backs([], at) == [] && Moved([], offset) == []
    {
    }

    static lemma CutAppend(list: seq<Entry>, n: nat, at: int)
      requires n < |list| && forall e | e in list[..n] :: e.sLno < at
      requires list[n].sLno < at
      ensures list[..n + 1] == list[..n] + [list[n]]
      ensures forall e | e in list[..n + 1] :: e.sLno < at
      ensures Fronts(list[..n + 1], at) == Fronts(list[..n], at) + [Front(list[n], at)]
      ensures Backs(list[..n + 1], at) == Backs(list[..n], at) + Back(list[n], at)
    {
      assert list[..n + 1] == list[..n] + [list[n]];
      assert list[..n + 1][..n] == list[..n];
    }

    static lemma MovedAppend(list: seq<Entry>, e: Entry, offset: int)
      ensures Moved(list + [e], offset) == Moved(list, offset) + [e.(suspect := Parent, sLno := e.sLno + offset)]
    {
    }

    /** Second loop: entries that start before `at` stay with the target; what reaches beyond is cut off. */
    static method BlameInside(list: seq<Entry>, at: int)
      returns (samep: seq<Entry>, diffp: seq<Entry>, rest: seq<Entry>, ghost n: nat)
      requires forall e | e in list :: e.numLines > 0
      ensures n <= |list| && rest == list[n..] && (rest != [] ==> rest[0].sLno >= at)
      ensures forall e | e in list[..n] :: e.sLno < at
      ensures Reversed(diffp) == Fronts(list[..n], at) && Reversed(samep) == Backs(list[..n], at)
    {
      CutNothing(at, 0);
      hide Fronts, Backs;
      samep, diffp, rest, n := [], [], list, 0;
      while rest != [] && rest[0].sLno < at
        invariant n <= |list| && rest == list[n..]
        invariant forall e | e in list[..n] :: e.sLno < at
        invariant Reversed(diffp) == Fronts(list[..n], at)
        invariant Reversed(samep) == Backs(list[..n], at)
      {
        var e := rest[0];
        assert e in list;
        CutAppend(list, n, at);
        if e.sLno + e.numLines > at {
          var halves := SplitBlameAt(e, at - e.sLno, e.suspect);
          samep := [halves.1] + samep;
          e := halves.0;
        }
        diffp := [e] + diffp;
        rest := rest[1..];
        n := n + 1;
      }
    }

    /** The numbers of a list whose first `n` entries start before `at` and whose others do not. */
    static lemma CutList(list: seq<Entry>, n: nat, at: int, from: int, to: int, suspect: Suspect)
      requires n <= |list| && Sorted(list) && Within(list, suspect, from, to) && from <= at
      requires forall e | e in list[..n] :: e.sLno < at
      requires n < |list| ==> list[n].sLno >= at
      requires forall e | e in list :: e.sLno + e.numLines <= to
      ensures var front, rest := Fronts(list[..n], at), Backs(list[..n], at) + list[n..];
        && Sorted(front) && Within(front, suspect, from, at)
        && Sorted(rest) && Within(rest, suspect, at, to)
        && (forall e | e in rest :: e.sLno + e.numLines <= to)
        && (forall l, s :: Count(front, l, s) == if s < at then Count(list, l, s) else 0)
        && (forall l, s :: Count(rest, l, s) == if s >= at then Count(list, l, s) else 0)
        && (forall l :: Holders(front, l) + Holders(rest, l) == Holders(list, l))
    {
      CutShape(list, n, at, from, to, suspect);
      hide Count, Holders, Fronts, Backs, Within, Sorted;
      forall l, s
        ensures Count(Fronts(list[..n], at), l, s) == if s < at then Count(list, l, s) else 0
        ensures Count(Backs(list[..n], at) + list[n..], l, s) == if s >= at then Count(list, l, s) else 0
      {
        CutCounts(list, n, at, l, s);
      }
      forall l ensures Holders(Fronts(list[..n], at), l) + Holders(Backs(list[..n], at) + list[n..], l) == Holders(list, l) {
        CutCounts(list, n, at, l, 0);
      }
    }

    static lemma CutCounts(list: seq<Entry>, n: nat, at: int, l: int, s: int)
      requires n <= |list| && Sorted(list)
      requires forall e | e in list[..n] :: e.sLno < at
      requires n < |list| ==> list[n].sLno >= at
      ensures Count(Fronts(list[..n], at), l, s) == if s < at then Count(list, l, s) else 0
      ensures Count(Backs(list[..n], at) + list[n..], l, s) == if s >= at then Count(list, l, s) else 0
      ensures Holders(Fronts(list[..n], at), l) + Holders(Backs(list[..n], at) + list[n..], l) == Holders(list, l)
    {
      hide Count, Holders, Fronts, Backs;
      assert list == list[..n] + list[n..];
      CountConcat(list[..n], list[n..], l, s);
      CountConcat(Backs(list[..n], at), list[n..], l, s);
      CountCut(list[..n], at, l, s);
      if s < at {
        forall e | e in list[n..] ensures s < e.sLno {
          var i :| 0 <= i < |list[n..]| && list[n..][i] == e;
          assert list[n..][i] == list[n + i];
        }
        CountBelow(list[n..], l, s);
      }
    }

    static lemma CutShape(list: seq<Entry>, n: nat, at: int, from: int, to: int, suspect: Suspect)
      requires n <= |list| && Sorted(list) && Within(list, suspect, from, to) && from <= at
      requires forall e | e in list[..n] :: e.sLno < at
      requires n < |list| ==> list[n].sLno >= at
      requires forall e | e in list :: e.sLno + e.numLines <= to
      ensures Sorted(Fronts(list[..n], at)) && Within(Fronts(list[..n], at), suspect, from, at)
      ensures var rest := Backs(list[..n], at) + list[n..];
        Sorted(rest) && Within(rest, suspect, at, to) && forall e | e in rest :: e.sLno + e.numLines <= to
    {
      hide Backs;
      forall e | e in list[..n] ensures e in list {
      }
      FrontsShape(list[..n], at, from, suspect);
      BacksShape(list[..n], at, from, to, suspect);
      RestShape(list, n, at, from, to, suspect);
      var backs := Backs(list[..n], at);
      forall e | e in backs ensures e.sLno < to {
        assert e.sLno + e.numLines <= to;
      }
      JoinEqual(backs, list[n..], suspect, at, to);
    }

    static lemma FrontsShape(list: seq<Entry>, at: int, from: int, suspect: Suspect)
      requires Sorted(list) && Within(list, suspect, from, at)
      ensures Sorted(Fronts(list, at)) && Within(Fronts(list, at), suspect, from, at)
    {
      var front := Fronts(list, at);
      forall e | e in front ensures e.numLines > 0 && e.suspect == suspect && from <= e.sLno < at {
        var i :| 0 <= i < |list| && front[i] == e;
        assert list[i] in list;
      }
    }

    static lemma RestShape(list: seq<Entry>, n: nat, at: int, from: int, to: int, suspect: Suspect)
      requires n <= |list| && Sorted(list) && Within(list, suspect, from, to)
      requires n < |list| ==> list[n].sLno >= at
      ensures Sorted(list[n..]) && Within(list[n..], suspect, at, to)
      ensures forall e | e in list[n..] :: e in list
    {
      forall e | e in list[n..] ensures e in list && at <= e.sLno {
        var i :| 0 <= i < |list[n..]| && list[n..][i] == e;
        assert list[n..][i] == list[n + i];
      }
    }

    static lemma JoinEqual(x: seq<Entry>, y: seq<Entry>, suspect: Suspect, at: int, to: int)
      requires forall e | e in x :: e.sLno == at && e.numLines > 0 && e.suspect == suspect && e.sLno < to
      requires Sorted(y) && Within(y, suspect, at, to)
      ensures Sorted(x + y) && Within(x + y, suspect, at, to)
    {
      forall i, j | 0 <= i < j < |x| + |y| ensures (x + y)[i].sLno <= (x + y)[j].sLno {
        if i < |x| {
          assert x[i] in x;
          if j < |x| {
            assert x[j] in x;
          } else {
            assert y[j - |x|] in y;
          }
        }
      }
    }

    static lemma Extend(x: seq<Entry>, y: seq<Entry>)
      ensures forall l, s :: Count(x + y, l, s) == Count(x, l, s) + Count(y, l, s)
      ensures forall l :: Holders(x + y, l) == Holders(x, l) + Holders(y, l)
    {
      forall l, s ensures Count(x + y, l, s) == Count(x, l, s) + Count(y, l, s) {
        CountConcat(x, y, l, s);
      }
      forall l ensures Holders(x + y, l) == Holders(x, l) + Holders(y, l) {
        CountConcat(x, y, l, 0);
      }
    }

    static lemma ExtendMoved(x: seq<Entry>, offset: int)
      ensures forall l, p :: Count(Moved(x, offset), l, p) == Count(x, l, p - offset)
      ensures forall l :: Holders(Moved(x, offset), l) == Holders(x, l)
    {
      forall l, p ensures Count(Moved(x, offset), l, p) == Count(x, l, p - offset) {
        CountMoved(x, offset, l, p);
      }
      forall l ensures Holders(Moved(x, offset), l) == Holders(x, l) {
        CountMoved(x, offset, l, 0);
      }
    }

    static lemma JoinSorted(x: seq<Entry>, y: seq<Entry>, suspect: Suspect, from: int, mid: int, to: int)
      requires Sorted(x) && Within(x, suspect, from, mid + 1) && Sorted(y) && Within(y, suspect, mid, to) && from <= mid
      ensures Sorted(x + y)
    {
      forall i, j | 0 <= i < |x| <= j < |x| + |y| ensures (x + y)[i].sLno <= (x + y)[j].sLno {
        assert x[i] in x && y[j - |x|] in y;
      }
    }

    static lemma WithinConcat(x: seq<Entry>, y: seq<Entry>, suspect: Suspect, from: int, to: int)
      requires Within(x, suspect, from, to) && Within(y, suspect, from, to)
      ensures Within(x + y, suspect, from, to)
    {
    }

    static lemma MovedShape(x: seq<Entry>, offset: int, suspect: Suspect, from: int, to: int)
      requires Sorted(x) && Within(x, suspect, from, to)
      ensures Sorted(Moved(x, offset)) && Within(Moved(x, offset), Parent, from + offset, to + offset)
    {
      forall e | e in Moved(x, offset) ensures e.numLines > 0 && e.suspect == Parent && from + offset <= e.sLno < to + offset {
        var i :| 0 <= i < |x| && Moved(x, offset)[i] == e;
        assert x[i] in x;
      }
    }

    /** Up to the first splice of blame_chunk: all that starts before the differing portion. */
    method SamePart(tlno: int, offset: int, ghost posA: int, ghost posB: int)
      requires Valid(posA, posB) && posB <= tlno <= INT_MAX && offset == posA - posB && posA >= 0
      modifies this`dst, this`src
      ensures Sorted(dst) && Within(dst, Parent, 0, tlno + offset + 1)
      ensures Sorted(src) && Within(src, Target, tlno, INT_MAX) && forall e | e in src :: e.sLno + e.numLines <= INT_MAX
      ensures forall l, p :: Count(dst, l, p) == old(Count(dst, l, p)) + if p - offset < tlno then old(Count(src, l, p - offset)) else 0
      ensures forall l, s :: Count(src, l, s) == if s >= tlno then old(Count(src, l, s)) else 0
      ensures forall l :: Holders(dst, l) + Holders(src, l) == old(Holders(dst, l) + Holders(src, l))
    {
      hide Sorted, Within, Count, Holders, Fronts, Backs, Moved;
      PositiveLines(src, Target, posB, INT_MAX);
      var samep, diffp, rest, n := BlameBefore(src, tlno, offset);
      ghost var front := Fronts(src[..n], tlno);
      CutList(src, n, tlno, posB, INT_MAX, Target);
      MovedShape(front, offset, Target, posB, tlno);
      ExtendMoved(front, offset);
      Extend(dst, Moved(front, offset));
      JoinSorted(dst, Moved(front, offset), Parent, 0, posA, tlno + offset);
      WithinLarger(dst, Parent, 0, posA + 1, 0, tlno + offset + 1);
      WithinLarger(Moved(front, offset), Parent, posA, tlno + offset, 0, tlno + offset + 1);
      WithinConcat(dst, Moved(front, offset), Parent, 0, tlno + offset + 1);
      var passed := ReverseBlame(samep, []);
      assert passed == Moved(front, offset);
      dst := dst + passed;
      src := ReverseBlame(diffp, rest);
    }

    static lemma PositiveLines(x: seq<Entry>, suspect: Suspect, from: int, to: int)
      requires Within(x, suspect, from, to)
      ensures forall e | e in x :: e.numLines > 0
    {
    }

    static lemma WithinLarger(x: seq<Entry>, suspect: Suspect, from: int, to: int, from': int, to': int)
      requires Within(x, suspect, from, to) && from' <= from && to <= to'
      ensures Within(x, suspect, from', to')
    {
    }

    /** blame_chunk with `ignore_diffs` off, for a hunk that replaces target lines [tlno, same). */
    method BlameChunk(tlno: int, offset: int, same: int, ghost posA: int, ghost posB: int, ghost countA: int)
      requires Valid(posA, posB) && 0 <= posB <= tlno <= same <= INT_MAX
      requires offset == posA - posB && posA >= 0 && countA >= 0
      modifies this`dst, this`kept, this`src
      ensures Valid(tlno + offset + countA, same)
      ensures forall l, p :: Count(dst, l, p) == old(Count(dst, l, p)) + if p - offset < tlno then old(Count(src, l, p - offset)) else 0
      ensures forall l, s :: Count(kept, l, s) == old(Count(kept, l, s)) + if tlno <= s < same then old(Count(src, l, s)) else 0
      ensures forall l, s :: Count(src, l, s) == if s >= same then old(Count(src, l, s)) else 0
      ensures forall l :: Holders(dst, l) + Holders(kept, l) + Holders(src, l) == old(Holders(dst, l) + Holders(kept, l) + Holders(src, l))
    {
      hide Sorted, Within, Count, Holders, Fronts, Backs, Moved;
      SamePart(tlno, offset, posA, posB);
      PositiveLines(src, Target, tlno, INT_MAX);
      var samep, diffp, rest, n := BlameInside(src, same);
      ghost var front := Fronts(src[..n], same);
      CutList(src, n, same, tlno, INT_MAX, Target);
      Extend(kept, front);
      WithinLarger(kept, Target, 0, posB, 0, tlno + 1);
      JoinSorted(kept, front, Target, 0, tlno, same);
      WithinLarger(kept, Target, 0, posB, 0, same);
      WithinLarger(front, Target, tlno, same, 0, same);
      WithinConcat(kept, front, Target, 0, same);
      src := ReverseBlame(samep, rest);
      var middle := ReverseBlame(diffp, []);
      assert middle == front;
      kept := kept + middle;
      WithinLarger(dst, Parent, 0, tlno + offset + 1, 0, tlno + offset + countA + 1);
    }

    // ---------- the whole pass ----------

    /** What the lists say when target lines before `posB` and parent lines before `posA` are decided. */
    ghost predicate Decided(orig: seq<Entry>, script: seq<Hunk>, posA: int, posB: int)
      reads this
    {
      && Valid(posA, posB)
      && (forall l, s :: Count(src, l, s) == if s >= posB then Count(orig, l, s) else 0)
      && (forall l, s :: Count(kept, l, s) == if s < posB && Align(script, 0, s).None? then Count(orig, l, s) else 0)
      && (forall l, p :: Count(dst, l, p) ==
            if p < posA && AlignBack(script, p).Some? then Count(orig, l, AlignBack(script, p).value) else 0)
      && (forall l :: Holders(dst, l) + Holders(kept, l) + Holders(src, l) == Holders(orig, l))
    }

    /** Alignment between hunk `i - 1` and the end of hunk `i`, seen from either side. */
    static lemma AlignInStep(script: seq<Hunk>, i: nat, s: int)
      requires InOrder(script) && Aligned(script) && i <= |script|
      requires PosB(script, i) <= s || i == 0
      requires i < |script| ==> s < PosB(script, i + 1)
      ensures Align(script, 0, s) ==
        if i < |script| && s >= script[i].startB then None else Some(s - PosB(script, i) + PosA(script, i))
    {
      AlignSkips(script, i, s);
    }

    static lemma AlignBackInStep(script: seq<Hunk>, i: nat, p: int)
      requires InOrder(script) && Aligned(script) && i <= |script|
      requires PosA(script, i) <= p || i == 0
      requires i < |script| ==> p < PosA(script, i + 1)
      ensures AlignBack(script, p) ==
        if i < |script| && p >= script[i].startA then None else Some(p - PosA(script, i) + PosB(script, i))
    {
      hide InOrder, Aligned, PosA, PosB, Align, Swapped;
      SwappedOk(script);
      SwappedPos(script, i);
      SwappedLength(script);
      if i < |script| {
        SwappedPos(script, i + 1);
        SwappedAt(script, i);
      }
      AlignInStep(Swapped(script), i, p);
    }

    /** blame_chunk_cb: one hunk moves the frontier from the end of hunk `i - 1` to the end of hunk `i`. */
    method ConsumeHunk(h: Hunk, ghost script: seq<Hunk>, ghost i: nat, ghost orig: seq<Entry>) returns (died: bool)
      requires InOrder(script) && i < |script| && h == script[i] && PosB(script, i + 1) <= INT_MAX
      requires 0 <= PosB(script, i) && 0 <= PosA(script, i) && offset == PosA(script, i) - PosB(script, i)
      requires Valid(PosA(script, i), PosB(script, i))
      requires Aligned(script) ==> Decided(orig, script, PosA(script, i), PosB(script, i))
      modifies this
      ensures died <==> h.startA - h.startB != PosA(script, i) - PosB(script, i)
      ensures !died ==> Valid(PosA(script, i + 1), PosB(script, i + 1)) && offset == PosA(script, i + 1) - PosB(script, i + 1)
      ensures Aligned(script) ==> Decided(orig, script, PosA(script, i + 1), PosB(script, i + 1))
    {
      hide Sorted, Within, Count, Holders, Align, AlignBack;
      if h.startA - h.startB != offset {
        return true;
      }
      BlameChunk(h.startB, h.startA - h.startB, h.startB + h.countB, PosA(script, i), PosB(script, i), h.countA);
      offset := h.startA + h.countA - (h.startB + h.countB);
      died := false;
      if Aligned(script) {
        forall s | PosB(script, i) <= s < PosB(script, i + 1)
          ensures Align(script, 0, s).None? <==> s >= h.startB
        {
          AlignInStep(script, i, s);
        }
        forall p | PosA(script, i) <= p < PosA(script, i + 1)
          ensures AlignBack(script, p) == if p >= h.startA then None else Some(p - (h.startA - h.startB))
        {
          AlignBackInStep(script, i, p);
        }
      }
    }

    /** The last call of blame_chunk: the rest is the same as the parent. */
    method ConsumeRest(ghost script: seq<Hunk>, ghost orig: seq<Entry>)
      requires InOrder(script) && Aligned(script) && 0 <= PosB(script, |script|) <= INT_MAX && 0 <= PosA(script, |script|)
      requires offset == PosA(script, |script|) - PosB(script, |script|)
      requires Decided(orig, script, PosA(script, |script|), PosB(script, |script|))
      requires forall l, s | s >= INT_MAX :: Count(orig, l, s) == 0
      modifies this
      ensures Sorted(dst) && Sorted(kept + src)
      ensures Retained(script, orig, kept + src)
      ensures forall l, p :: Count(dst, l, p) == CountBack(script, orig, l, p)
      ensures forall l :: Holders(dst, l) + Holders(kept + src, l) == Holders(orig, l)
    {
      hide Sorted, Within, Count, Holders, Align, AlignBack, InOrder, Aligned, PosA, PosB;
      ghost var posA, posB := PosA(script, |script|), PosB(script, |script|);
      BlameChunk(INT_MAX, offset, INT_MAX, posA, posB, 0);
      forall s | posB <= s ensures Align(script, 0, s).Some? {
        AlignInStep(script, |script|, s);
      }
      forall p | posA <= p ensures AlignBack(script, p) == Some(p - posA + posB) {
        AlignBackInStep(script, |script|, p);
      }
      NothingLeft(src);
      NoHolders();
      assert kept + src == kept;
    }

    static lemma NoHolders()
      ensures forall l :: Holders([], l) == 0
    {
    }

    static lemma NothingLeft(x: seq<Entry>)
      requires Within(x, Target, INT_MAX, INT_MAX)
      ensures x == []
    {
      if x != [] {
        Outside(x[0], x);
      }
    }

    static lemma Outside(e: Entry, x: seq<Entry>)
      requires Within(x, Target, INT_MAX, INT_MAX)
      ensures e !in x
    {
    }
  }

  // ---------- merging ----------

  /** The stable merge of two lists by suspect line. */
  ghost function Merged(x: seq<Entry>, y: seq<Entry>): seq<Entry>
    decreases |x| + |y|
  {
    if x == [] then y
    else if y == [] then x
    else if x[0].sLno <= y[0].sLno then [x[0]] + Merged(x[1..], y)
    else [y[0]] + Merged(x, y[1..])
  }

  lemma {:induction false} MergedCount(x: seq<Entry>, y: seq<Entry>, l: int, s: int)
    ensures Count(Merged(x, y), l, s) == Count(x, l, s) + Count(y, l, s)
    ensures Holders(Merged(x, y), l) == Holders(x, l) + Holders(y, l)
    decreases |x| + |y|
  {
    if x != [] && y != [] {
      if x[0].sLno <= y[0].sLno {
        assert Merged(x, y)[1..] == Merged(x[1..], y);
        MergedCount(x[1..], y, l, s);
      } else {
        assert Merged(x, y)[1..] == Merged(x, y[1..]);
        MergedCount(x, y[1..], l, s);
      }
    }
  }

  lemma {:induction false} MergedSorted(x: seq<Entry>, y: seq<Entry>)
    requires Sorted(x) && Sorted(y)
    ensures Sorted(Merged(x, y))
    ensures forall e | e in Merged(x, y) :: e in x || e in y
    decreases |x| + |y|
  {
    if x != [] && y != [] {
      if x[0].sLno <= y[0].sLno {
        MergedSorted(x[1..], y);
        forall e | e in Merged(x[1..], y) ensures x[0].sLno <= e.sLno && (e in x || e in y) {
          assert e in x[1..] || e in y;
        }
        ConsSorted(x[0], Merged(x[1..], y));
      } else {
        MergedSorted(x, y[1..]);
        forall e | e in Merged(x, y[1..]) ensures y[0].sLno <= e.sLno && (e in x || e in y) {
          assert e in x || e in y[1..];
        }
        ConsSorted(y[0], Merged(x, y[1..]));
      }
    }
  }

  lemma ConsSorted(e: Entry, list: seq<Entry>)
    requires Sorted(list) && forall f | f in list :: e.sLno <= f.sLno
    ensures Sorted([e] + list)
  {
  }

  lemma MergeStep(r: seq<Entry>, x: seq<Entry>, y: seq<Entry>)
    requires x != [] && y != []
    ensures x[0].sLno <= y[0].sLno ==> r + Merged(x, y) == (r + [x[0]]) + Merged(x[1..], y)
    ensures x[0].sLno > y[0].sLno ==> r + Merged(x, y) == (r + [y[0]]) + Merged(x, y[1..])
  {
  }

  /** Appends the entries of `x` that come before the head of `y`. */
  method RunOfFirst(done: seq<Entry>, x: seq<Entry>, y: seq<Entry>) returns (r: seq<Entry>, rest: seq<Entry>)
    requires x != [] && y != [] && x[0].sLno <= y[0].sLno
    ensures r + Merged(rest, y) == done + Merged(x, y) && |rest| < |x|
    ensures rest == [] || rest[0].sLno > y[0].sLno
  {
    hide Merged;
    r, rest := done, x;
    while rest != [] && rest[0].sLno <= y[0].sLno
      invariant r + Merged(rest, y) == done + Merged(x, y) && |rest| <= |x| && (|rest| == |x| ==> rest == x)
    {
      MergeStep(r, rest, y);
      r, rest := r + [rest[0]], rest[1..];
    }
  }

  /** Appends the entries of `y` that come before the head of `x`. */
  method RunOfSecond(done: seq<Entry>, x: seq<Entry>, y: seq<Entry>) returns (r: seq<Entry>, rest: seq<Entry>)
    requires x != [] && y != [] && x[0].sLno > y[0].sLno
    ensures r + Merged(x, rest) == done + Merged(x, y) && |rest| < |y|
    ensures rest == [] || x[0].sLno <= rest[0].sLno
  {
    hide Merged;
    r, rest := done, y;
    while rest != [] && x[0].sLno > rest[0].sLno
      invariant r + Merged(x, rest) == done + Merged(x, y) && |rest| <= |y| && (|rest| == |y| ==> rest == y)
    {
      MergeStep(r, x, rest);
      r, rest := r + [rest[0]], rest[1..];
    }
  }

  /** blame_merge: alternates between runs of the two lists. */
  method BlameMerge(list1: seq<Entry>, list2: seq<Entry>) returns (r: seq<Entry>)
    ensures r == Merged(list1, list2)
  {
    var p1, p2 := list1, list2;
    r := [];
    if p1 == [] {
      return p2;
    }
    if p2 == [] {
      return p1;
    }
    if p1[0].sLno <= p2[0].sLno {
      r, p1 := RunOfFirst(r, p1, p2);
    }
    while p1 != []
      invariant p2 != [] && (p1 != [] ==> p1[0].sLno > p2[0].sLno)
      invariant r + Merged(p1, p2) == Merged(list1, list2)
      decreases |p1| + |p2|
    {
      r, p2 := RunOfSecond(r, p1, p2);
      if p2 == [] {
        return r + p1;
      }
      r, p1 := RunOfFirst(r, p1, p2);
    }
    r := r + p2;
  }

  // ---------- passing blame to a parent ----------

  /** One file in one commit, with the entries that are suspected of it. */
  class Origin {
    var suspects: seq<Entry>

    constructor ()
      ensures suspects == []
    {
      suspects := [];
    }
  }

  /** queue_blames: merge the newly passed entries into those the parent already has. */
  method QueueBlames(parent: Origin, sorted: seq<Entry>)
    modifies parent
    ensures parent.suspects == Merged(old(parent.suspects), sorted)
  {
    if parent.suspects != [] {
      parent.suspects := BlameMerge(parent.suspects, sorted);
    } else {
      parent.suspects := sorted;
    }
  }

  /** `rest` is `orig` cut down to the lines inside hunks. */
  ghost predicate Retained(script: seq<Hunk>, orig: seq<Entry>, rest: seq<Entry>) {
    forall l, s :: Count(rest, l, s) == if Align(script, 0, s).None? then Count(orig, l, s) else 0
  }

  /** `after` is `before` and, on their aligned parent lines, the lines of `orig` outside all hunks. */
  ghost predicate Received(script: seq<Hunk>, orig: seq<Entry>, before: seq<Entry>, after: seq<Entry>) {
    forall l, p :: Count(after, l, p) == Count(before, l, p) + CountBack(script, orig, l, p)
  }

  ghost function CountBack(script: seq<Hunk>, orig: seq<Entry>, l: int, p: int): nat {
    if AlignBack(script, p).Some? then Count(orig, l, AlignBack(script, p).value) else 0
  }

  lemma {:induction false} PosBounds(script: seq<Hunk>, i: nat)
    requires InOrder(script) && i <= |script|
    ensures 0 <= PosA(script, i) && 0 <= PosB(script, i) <= PosB(script, |script|)
  {
    PosBMonotone(script, i, |script|);
    if i > 0 {
      PosBounds(script, i - 1);
    }
  }

  lemma CountAbove(list: seq<Entry>, l: int, s: int)
    requires forall e | e in list :: e.sLno + e.numLines <= s
    ensures Count(list, l, s) == 0
  {
  }

  /** pass_blame_to_parent with `ignore_diffs` off; a misaligned script is an internal error that ends the program. */
  method PassBlameToParent(target: Origin, parent: Origin, script: seq<Hunk>) returns (died: bool)
    requires target != parent && InOrder(script) && PosB(script, |script|) <= INT_MAX
    requires Sorted(target.suspects) && Within(target.suspects, Target, 0, INT_MAX)
    requires forall e | e in target.suspects :: e.sLno + e.numLines <= INT_MAX
    requires Sorted(parent.suspects)
    modifies target, parent
    ensures died <==> old(target.suspects) != [] && !Aligned(script)
    ensures !died ==> Sorted(target.suspects) && Sorted(parent.suspects)
    ensures !died && old(target.suspects) != [] ==>
      // a line stays exactly when it lies in a hunk, at the same suspect line
      && Retained(script, old(target.suspects), target.suspects)
      // and goes to the parent line it is aligned with exactly when it does not
      && Received(script, old(target.suspects), old(parent.suspects), parent.suspects)
    // so no final line is lost or duplicated
    ensures !died ==> forall l ::
      Holders(target.suspects, l) + Holders(parent.suspects, l) == old(Holders(target.suspects, l) + Holders(parent.suspects, l))
  {
    hide Sorted, Within, Count, Holders, Align, AlignBack, Merged, InOrder, PosA, PosB;
    if target.suspects == [] {
      return false;
    }
    ghost var orig := target.suspects;
    var d := new Pass(target.suspects);
    Start(d, script, orig);
    for i := 0 to |script|
      invariant target.suspects == orig && parent.suspects == old(parent.suspects)
      invariant d.Valid(PosA(script, i), PosB(script, i)) && d.offset == PosA(script, i) - PosB(script, i)
      invariant Aligned(script) ==> d.Decided(orig, script, PosA(script, i), PosB(script, i))
      invariant forall j | 0 <= j < i :: script[j].startA - script[j].startB == PosA(script, j) - PosB(script, j)
    {
      PosBounds(script, i);
      PosBounds(script, i + 1);
      died := d.ConsumeHunk(script[i], script, i, orig);
      if died {
        return;
      }
    }
    PosBounds(script, |script|);
    forall l, s | s >= INT_MAX ensures Count(orig, l, s) == 0 {
      CountAbove(orig, l, s);
    }
    d.ConsumeRest(script, orig);
    target.suspects := d.kept + d.src;
    QueueBlames(parent, d.dst);
    MergedSorted(old(parent.suspects), d.dst);
    MergedCounts(old(parent.suspects), d.dst);
    died := false;
  }

  lemma MergedCounts(x: seq<Entry>, y: seq<Entry>)
    ensures forall l, s :: Count(Merged(x, y), l, s) == Count(x, l, s) + Count(y, l, s)
    ensures forall l :: Holders(Merged(x, y), l) == Holders(x, l) + Holders(y, l)
  {
    forall l, s ensures Count(Merged(x, y), l, s) == Count(x, l, s) + Count(y, l, s) {
      MergedCount(x, y, l, s);
    }
    forall l ensures Holders(Merged(x, y), l) == Holders(x, l) + Holders(y, l) {
      MergedCount(x, y, l, 0);
    }
  }

  lemma Start(d: Pass, script: seq<Hunk>, orig: seq<Entry>)
    requires d.dst == [] && d.kept == [] && d.src == orig && InOrder(script)
    requires Sorted(orig) && Within(orig, Target, 0, INT_MAX) && forall e | e in orig :: e.sLno + e.numLines <= INT_MAX
    ensures d.Decided(orig, script, 0, 0) && PosA(script, 0) == PosB(script, 0) == 0
  {
    var none: seq<Entry> := [];
    forall l, s | s < 0 ensures Count(orig, l, s) == 0 {
      CountBelow(orig, l, s);
    }
    forall l, p | p < 0 && AlignBack(script, p).Some? ensures Count(orig, l, AlignBack(script, p).value) == 0 {
      BackBeforeStart(script, p);
    }
    assert forall l, s :: Count(none, l, s) == 0;
    assert forall l :: Holders(none, l) == 0;
  }

  lemma BackBeforeStart(script: seq<Hunk>, p: int)
    requires InOrder(script) && p < 0
    ensures AlignBack(script, p) == Some(p)
  {
    if script != [] {
      SwappedAt(script, 0);
      assert script[0].countA >= 0;
    }
  }
}
