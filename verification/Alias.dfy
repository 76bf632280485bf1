/**
 Command lines in alias.c: quoting arguments, and splitting a line in place into arguments.
 */
module Alias {
  import opened Wrappers

  datatype Split<T> = Args(args: seq<T>) | BadEnding | UnclosedQuote | TooMany

  ghost predicate NoNul(s: string) {
    forall i | 0 <= i < |s| :: s[i] != '\0'
  }

  function SkipSpaces(s: string): (r: string)
    ensures |r| <= |s| && r == s[|s| - |r|..]
  {
    if s != "" && IsSpace(s[0]) then SkipSpaces(s[1..]) else s
  }

  /** What splitting `s` means, inside the quotes `quoted` if it is not NUL, with `cur` already part of the argument at hand. */
  function Meaning(s: string, quoted: char, cur: string, done: seq<string>): Split<string>
    decreases |s|
  {
    if s == "" then (if quoted != '\0' then UnclosedQuote else if |done| + 1 >= INT_MAX then TooMany else Args(done + [cur]))
    else if quoted == '\0' && IsSpace(s[0]) then Meaning(SkipSpaces(s[1..]), quoted, "", done + [cur])
    else if quoted == '\0' && (s[0] == '\'' || s[0] == '"') then Meaning(s[1..], s[0], cur, done)
    else if s[0] == quoted then Meaning(s[1..], '\0', cur, done)
    else if s[0] == '\\' && quoted != '\'' then
      if |s| == 1 then BadEnding else Meaning(s[2..], quoted, cur + [s[1]], done)
    else Meaning(s[1..], quoted, cur + [s[0]], done)
  }

  // ---------- quoting ----------

  function Escaped(c: char): string {
    if c == '"' || c == '\\' then ['\\', c] else [c]
  }

  function Escape(a: string): string {
    if a == "" then "" else Escape(a[..|a| - 1]) + Escaped(a[|a| - 1])
  }

  function Quote(a: string): string {
    "\"" + Escape(a) + "\""
  }

  function Quoted(argv: seq<string>): string {
    if argv == [] then ""
    else Quoted(argv[..|argv| - 1]) + (if |argv| == 1 then "" else " ") + Quote(argv[|argv| - 1])
  }

  lemma EscapeMore(a: string, j: nat)
    requires j < |a|
    ensures Escape(a[..j + 1]) == Escape(a[..j]) + Escaped(a[j])
  {
    assert a[..j + 1][..j] == a[..j];
  }

  lemma NothingQuoted()
    ensures Quoted([]) == "" && Escape("") == ""
  {
  }

  lemma QuotedMore(argv: seq<string>, i: nat)
    requires i < |argv|
    ensures Quoted(argv[..i + 1]) == Quoted(argv[..i]) + (if i == 0 then "" else " ") + Quote(argv[i])
  {
    hide Quote;
    assert argv[..i + 1][..i] == argv[..i];
  }

  /** quote_cmdline: appends the arguments to `buf`, one character at a time. */
  method QuoteCmdline(buf: string, argv: seq<string>) returns (r: string)
    ensures r == buf + Quoted(argv)
  {
    NothingQuoted();
    hide Quoted, Escape;
    r := buf;
    for i := 0 to |argv|
      invariant r == buf + Quoted(argv[..i])
    {
      QuotedMore(argv, i);
      if i != 0 {
        r := r + " ";
      }
      r := r + "\"";
      ghost var before := r;
      var arg := argv[i];
      for j := 0 to |arg|
        invariant r == before + Escape(arg[..j])
      {
        EscapeMore(arg, j);
        var c := arg[j];
        if c == '"' || c == '\\' {
          r := r + "\\";
        }
        r := r + [c];
      }
      assert arg[..|arg|] == arg;
      r := r + "\"";
    }
    assert argv[..|argv|] == argv;
  }

  // ---------- splitting in place ----------

  /** The arguments one after the other, each with its NUL. */
  ghost function Flat(args: seq<string>): string {
    if args == [] then "" else Flat(args[..|args| - 1]) + args[|args| - 1] + "\0"
  }

  /** Where each of them starts. */
  ghost predicate Starts(argv: seq<nat>, args: seq<string>) {
    forall i | 0 <= i < |argv| && i <= |args| :: argv[i] == |Flat(args[..i])|
  }

  lemma FlatMore(args: seq<string>, a: string)
    ensures Flat(args + [a]) == Flat(args) + a + "\0"
  {
    assert (args + [a])[..|args|] == args;
  }

  lemma StartsMore(argv: seq<nat>, args: seq<string>, a: string)
    requires |argv| == |args| + 1 && Starts(argv, args)
    ensures Starts(argv, args + [a]) && Starts(argv + [|Flat(args + [a])|], args + [a])
  {
    hide Flat;
    var all := args + [a];
    forall i | 0 <= i <= |args| ensures argv[i] == |Flat(all[..i])| {
      assert all[..i] == args[..i];
    }
    assert all[..|args| + 1] == all;
  }

  lemma SkipAt(line: string, k: nat)
    requires k <= |line|
    ensures SkipSpaces(line[k..]) == if k < |line| && IsSpace(line[k]) then SkipSpaces(line[k + 1..]) else line[k..]
  {
    if k < |line| {
      assert line[k..][1..] == line[k + 1..];
    }
  }

  lemma MeaningAt(line: string, k: nat, quoted: char, cur: string, done: seq<string>)
    requires k < |line|
    ensures var c := line[k];
      Meaning(line[k..], quoted, cur, done) ==
      if quoted == '\0' && IsSpace(c) then Meaning(SkipSpaces(line[k + 1..]), quoted, "", done + [cur])
      else if quoted == '\0' && (c == '\'' || c == '"') then Meaning(line[k + 1..], c, cur, done)
      else if c == quoted then Meaning(line[k + 1..], '\0', cur, done)
      else if c != '\\' || quoted == '\'' then Meaning(line[k + 1..], quoted, cur + [c], done)
      else if k + 1 == |line| then BadEnding
      else Meaning(line[k + 2..], quoted, cur + [line[k + 1]], done)
  {
    assert line[k..][1..] == line[k + 1..];
    if k + 1 < |line| {
      assert line[k..][2..] == line[k + 2..];
    }
  }

  lemma MeaningOfEnd(quoted: char, cur: string, done: seq<string>)
    ensures Meaning("", quoted, cur, done) ==
      if quoted != '\0' then UnclosedQuote else if |done| + 1 >= INT_MAX then TooMany else Args(done + [cur])
  {
  }

  /** What the code hands back for `meant`: where the arguments start in the line it wrote, or the same failure. */
  ghost predicate Answers(result: Split<nat>, meant: Split<string>, written: string) {
    match meant
    case Args(args) =>
      result.Args? && |result.args| == |args| && Starts(result.args, args) && Flat(args) <= written
    case BadEnding => result.BadEnding?
    case UnclosedQuote => result.UnclosedQuote?
    case TooMany => result.TooMany?
  }

  lemma AnswersArgs(argv: seq<nat>, args: seq<string>, written: string)
    requires |argv| == |args| && Starts(argv, args) && Flat(args) <= written
    ensures Answers(Args(argv), Args(args), written)
  {
  }

  lemma AnswersFailure(written: string)
    ensures Answers(BadEnding, BadEnding, written)
    ensures Answers(UnclosedQuote, UnclosedQuote, written)
    ensures Answers(TooMany, TooMany, written)
  {
  }

  /** Between two steps: `done` and `cur` are written, and the line is still there from `src` on. */
  ghost predicate Halfway(w: string, line: string, src: nat, dst: nat, done: seq<string>, cur: string) {
    dst <= src <= |line| && |w| == |line| + 1 && w[..dst] == Flat(done) + cur && w[src..] == line[src..] + "\0"
  }

  lemma Begin(w: string, line: string)
    requires w == line + "\0"
    ensures Halfway(w, line, 0, 0, [], "") && Starts([0], []) && line[0..] == line
  {
    var none: seq<string> := [];
    assert none[..0] == none;
  }

  lemma NextChar(w: string, line: string, src: nat, dst: nat, done: seq<string>, cur: string, i: nat)
    requires Halfway(w, line, src, dst, done, cur) && NoNul(line) && src <= i <= |line|
    ensures |w| == |line| + 1
    ensures if i < |line| then w[i] == line[i] != '\0' else w[i] == '\0'
  {
    hide Flat;
    assert w[i] == w[src..][i - src];
  }

  lemma Advance(w: string, line: string, src: nat, dst: nat, done: seq<string>, cur: string, next: nat)
    requires Halfway(w, line, src, dst, done, cur) && src <= next <= |line|
    ensures Halfway(w, line, next, dst, done, cur)
  {
    hide Flat;
    assert w[next..] == w[src..][next - src..];
  }

  lemma PutChar(w: string, line: string, src: nat, dst: nat, done: seq<string>, cur: string, c: char)
    requires Halfway(w, line, src, dst, done, cur) && src < |line|
    ensures Halfway(w[dst := c], line, src + 1, dst + 1, done, cur + [c])
  {
    hide Flat;
    Advance(w, line, src, dst, done, cur, src + 1);
    assert w[dst := c][..dst + 1] == w[..dst] + [c];
    assert w[dst := c][src + 1..] == w[src + 1..];
  }

  lemma EndArg(w: string, line: string, src: nat, dst: nat, done: seq<string>, cur: string)
    requires Halfway(w, line, src, dst, done, cur) && src < |line|
    ensures Halfway(w[dst := '\0'], line, src + 1, dst + 1, done + [cur], "")
    ensures dst + 1 == |Flat(done + [cur])|
  {
    hide Flat;
    PutChar(w, line, src, dst, done, cur, '\0');
    FlatMore(done, cur);
  }

  lemma EndLine(w: string, line: string, src: nat, dst: nat, done: seq<string>, cur: string)
    requires Halfway(w, line, src, dst, done, cur)
    ensures Flat(done + [cur]) <= w[dst := '\0']
  {
    hide Flat;
    FlatMore(done, cur);
    assert w[dst := '\0'][..dst + 1] == w[..dst] + "\0";
  }

  /** The inner loop of split_cmdline. */
  method SkipBlanks(cmdline: array<char>, from: nat, ghost line: string, ghost dst: nat, ghost done: seq<string>, ghost cur: string)
    returns (src: nat)
    requires Halfway(cmdline[..], line, from, dst, done, cur) && NoNul(line)
    ensures src <= |line| && line[src..] == SkipSpaces(line[from..])
    ensures Halfway(cmdline[..], line, src, dst, done, cur)
  {
    ghost var w := cmdline[..];
    src := from;
    NextChar(w, line, from, dst, done, cur, src);
    hide *;
    while cmdline[src] != '\0' && IsSpace(cmdline[src])
      invariant from <= src <= |line| == cmdline.Length - 1 && forall i | from <= i < src :: IsSpace(line[i])
      decreases |line| - src
    {
      NextChar(w, line, from, dst, done, cur, src);
      src := src + 1;
    }
    NextChar(w, line, from, dst, done, cur, src);
    SkipsTo(line, from, src);
    Advance(w, line, from, dst, done, cur, src);
  }

  lemma {:induction false} SkipsTo(line: string, from: nat, to: nat)
    requires from <= to <= |line| && (forall i | from <= i < to :: IsSpace(line[i])) && (to < |line| ==> !IsSpace(line[to]))
    ensures SkipSpaces(line[from..]) == line[to..]
    decreases |line| - from
  {
    hide IsSpace, SkipSpaces;
    SkipAt(line, from);
    if from < to {
      SkipsTo(line, from + 1, to);
    }
  }

  /** split_cmdline: writes the arguments over the line, up to its NUL. */
  method SplitCmdline(cmdline: array<char>, ghost line: string) returns (result: Split<nat>)
    requires cmdline[..] == line + "\0" && NoNul(line)
    modifies cmdline
    ensures Answers(result, Meaning(line, '\0', "", []), cmdline[..])
  {
    hide *;
    var src, dst, quoted: char := 0, 0, '\0';
    ghost var done: seq<string>, cur: string := [], "";
    var argv: seq<nat> := [0];
    ghost var goal := Meaning(line, '\0', "", []);
    Begin(cmdline[..], line);
    NextChar(cmdline[..], line, 0, 0, [], "", 0);
    while cmdline[src] != '\0'
      invariant 0 <= dst <= src <= |line| == cmdline.Length - 1
      invariant Halfway(cmdline[..], line, src, dst, done, cur)
      invariant |argv| == |done| + 1 && Starts(argv, done)
      invariant goal == Meaning(line[src..], quoted, cur, done)
      decreases |line| - src
    {
      ghost var w := cmdline[..];
      NextChar(w, line, src, dst, done, cur, src);
      var c := cmdline[src];
      MeaningAt(line, src, quoted, cur, done);
      if quoted == '\0' && IsSpace(c) {
        cmdline[dst] := '\0';
        assert cmdline[..] == w[dst := '\0'];
        EndArg(w, line, src, dst, done, cur);
        StartsMore(argv, done, cur);
        dst := dst + 1;
        src := src + 1;
        done, cur := done + [cur], "";
        src := SkipBlanks(cmdline, src, line, dst, done, cur);
        argv := argv + [dst];
      } else if quoted == '\0' && (c == '\'' || c == '"') {
        quoted := c;
        src := src + 1;
        Advance(w, line, src - 1, dst, done, cur, src);
      } else if c == quoted {
        quoted := '\0';
        src := src + 1;
        Advance(w, line, src - 1, dst, done, cur, src);
      } else {
        if c == '\\' && quoted != '\'' {
          src := src + 1;
          Advance(w, line, src - 1, dst, done, cur, src);
          c := cmdline[src];
          NextChar(w, line, src, dst, done, cur, src);
          if c == '\0' {
            AnswersFailure(cmdline[..]);
            return BadEnding;
          }
        }
        cmdline[dst] := c;
        assert cmdline[..] == w[dst := c];
        PutChar(w, line, src, dst, done, cur, c);
        dst := dst + 1;
        src := src + 1;
        cur := cur + [c];
      }
    }
    NextChar(cmdline[..], line, src, dst, done, cur, src);
    assert line[src..] == "";
    MeaningOfEnd(quoted, cur, done);
    EndLine(cmdline[..], line, src, dst, done, cur);
    ghost var w := cmdline[..];
    cmdline[dst] := '\0';
    assert cmdline[..] == w[dst := '\0'];
    AnswersFailure(cmdline[..]);
    if quoted != '\0' {
      return UnclosedQuote;
    }
    if |argv| >= INT_MAX {
      return TooMany;
    }
    StartsMore(argv, done, cur);
    AnswersArgs(argv, done + [cur], cmdline[..]);
    result := Args(argv);
  }

  // ---------- splitting undoes quoting ----------

  /** Inside double quotes, an escaped argument reads as itself. */
  lemma {:induction false} EscapedReads(a: string, rest: string, cur: string, done: seq<string>)
    requires NoNul(a)
    ensures Meaning(Escape(a) + rest, '"', cur, done) == Meaning(rest, '"', cur + a, done)
  {
    hide Meaning;
    if a == "" {
      assert Escape(a) + rest == rest && cur + a == cur;
    } else {
      var k := |a| - 1;
      var more := Escaped(a[k]) + rest;
      EscapedReads(a[..k], more, cur, done);
      assert Escape(a) + rest == Escape(a[..k]) + more;
      MeaningAt(more, 0, '"', cur + a[..k], done);
      assert more[0..] == more && more[|Escaped(a[k])|..] == rest;
      assert cur + a == cur + a[..k] + [a[k]];
    }
  }

  lemma {:induction false} QuoteReads(a: string, rest: string, done: seq<string>)
    requires NoNul(a)
    ensures Meaning(Quote(a) + rest, '\0', "", done) == Meaning(rest, '\0', a, done)
  {
    hide Meaning, Escape;
    var after, all := "\"" + rest, Quote(a) + rest;
    EscapedReads(a, after, "", done);
    MeaningAt(all, 0, '\0', "", done);
    MeaningAt(after, 0, '"', a, done);
    assert all[0..] == all && all[1..] == Escape(a) + after;
    assert after[0..] == after && after[1..] == rest && "" + a == a;
  }

  lemma SpaceReads(a: string, rest: string, cur: string, done: seq<string>)
    ensures Meaning(" " + (Quote(a) + rest), '\0', cur, done) == Meaning(Quote(a) + rest, '\0', "", done + [cur])
  {
    hide Meaning, Escape;
    var tail, all := Quote(a) + rest, " " + (Quote(a) + rest);
    MeaningAt(all, 0, '\0', cur, done);
    assert all[0..] == all && all[1..] == tail && SkipSpaces(tail) == tail;
  }

  lemma {:induction false} QuotedReads(argv: seq<string>, rest: string)
    requires argv != [] && forall a <- argv :: NoNul(a)
    ensures Meaning(Quoted(argv) + rest, '\0', "", []) == Meaning(rest, '\0', argv[|argv| - 1], argv[..|argv| - 1])
  {
    hide Meaning, Quote;
    var k := |argv| - 1;
    var a, front := argv[k], argv[..k];
    QuoteReads(a, rest, front);
    QuotedMore(argv, k);
    assert argv[..k + 1] == argv;
    if k == 0 {
      assert Quoted(argv) + rest == Quote(a) + rest;
    } else {
      var tail := Quote(a) + rest;
      QuotedReads(front, " " + tail);
      SpaceReads(a, rest, front[k - 1], front[..k - 1]);
      assert Quoted(argv) + rest == Quoted(front) + (" " + tail);
      assert front[..k - 1] + [front[k - 1]] == front;
    }
  }

  /** What a quoted command line means is the arguments again, except when there are none, or more than an int counts. */
  lemma SplitUndoesQuote(argv: seq<string>)
    requires forall a <- argv :: NoNul(a)
    ensures Meaning(Quoted(argv), '\0', "", []) == Args(argv) <==> 1 <= |argv| < INT_MAX
  {
    hide Meaning, Quoted;
    if argv == [] {
      NothingQuoted();
      MeaningOfEnd('\0', "", []);
    } else {
      QuotedReads(argv, "");
      MeaningOfEnd('\0', argv[|argv| - 1], argv[..|argv| - 1]);
      assert Quoted(argv) + "" == Quoted(argv);
      assert argv[..|argv| - 1] + [argv[|argv| - 1]] == argv;
    }
  }

  // ---------- every way to write a command line ----------

  /** A character by itself, or behind a backslash. */
  datatype Char = Plain(c: char) | Backslashed(c: char)

  /** A part of an argument: a character, or text in single or in double quotes. */
  datatype Piece = Bare(ch: Char) | Single(text: string) | Double(chars: seq<Char>)

  /** What may stand by itself, inside double quotes or outside; anything may follow a backslash. */
  predicate IsProper(ch: Char, quoted: char) {
    ch.Backslashed? || (ch.c != '\\' && if quoted == '"' then ch.c != '"' else !IsSpace(ch.c) && ch.c != '"' && ch.c != '\'')
  }

  predicate IsPiece(p: Piece) {
    match p
    case Bare(ch) => IsProper(ch, '\0')
    case Single(text) => forall i | 0 <= i < |text| :: text[i] != '\''
    case Double(chars) => forall i | 0 <= i < |chars| :: IsProper(chars[i], '"')
  }

  function Spelled(ch: Char): string {
    match ch
    case Plain(c) => [c]
    case Backslashed(c) => ['\\', c]
  }

  function SpelledAll(chars: seq<Char>): string {
    if chars == [] then "" else Spelled(chars[0]) + SpelledAll(chars[1..])
  }

  function Read(chars: seq<Char>): string {
    if chars == [] then "" else [chars[0].c] + Read(chars[1..])
  }

  function SpelledPiece(p: Piece): string {
    match p
    case Bare(ch) => Spelled(ch)
    case Single(text) => "'" + text + "'"
    case Double(chars) => "\"" + SpelledAll(chars) + "\""
  }

  function ReadPiece(p: Piece): string {
    match p
    case Bare(ch) => [ch.c]
    case Single(text) => text
    case Double(chars) => Read(chars)
  }

  function SpelledWord(w: seq<Piece>): string {
    if w == [] then "" else SpelledPiece(w[0]) + SpelledWord(w[1..])
  }

  function ReadWord(w: seq<Piece>): string {
    if w == [] then "" else ReadPiece(w[0]) + ReadWord(w[1..])
  }

  /** A word and the white space before it. */
  datatype Word = Word(blank: string, pieces: seq<Piece>)

  function SpelledLine(first: seq<Piece>, more: seq<Word>): string {
    SpelledWord(first) + SpelledWords(more)
  }

  function SpelledWords(more: seq<Word>): string {
    if more == [] then "" else more[0].blank + SpelledWord(more[0].pieces) + SpelledWords(more[1..])
  }

  function ReadWords(more: seq<Word>): seq<string> {
    if more == [] then [] else [ReadWord(more[0].pieces)] + ReadWords(more[1..])
  }

  ghost predicate IsWord(w: seq<Piece>) {
    forall p | p in w :: IsPiece(p)
  }

  /** White space stands between words; only behind the last one may there be some more, with nothing after it. */
  ghost predicate AreWords(more: seq<Word>) {
    forall i | 0 <= i < |more| ::
      && more[i].blank != "" && (forall k | 0 <= k < |more[i].blank| :: IsSpace(more[i].blank[k])) && IsWord(more[i].pieces)
      && (i < |more| - 1 ==> more[i].pieces != [])
  }

  lemma CharReads(ch: Char, quoted: char, rest: string, cur: string, done: seq<string>)
    requires (quoted == '\0' || quoted == '"') && IsProper(ch, quoted) && ch.c != '\0'
    ensures Meaning(Spelled(ch) + rest, quoted, cur, done) == Meaning(rest, quoted, cur + [ch.c], done)
  {
    var s := Spelled(ch) + rest;
    if ch.Plain? {
      assert s[0] == ch.c && s[1..] == rest;
    } else {
      assert s[0] == '\\' && s[1] == ch.c && s[2..] == rest;
    }
  }

  ghost predicate NoNulChars(chars: seq<Char>) {
    forall i | 0 <= i < |chars| :: chars[i].c != '\0'
  }

  lemma {:induction false} CharsRead(chars: seq<Char>, rest: string, cur: string, done: seq<string>)
    requires NoNulChars(chars) && forall i | 0 <= i < |chars| :: IsProper(chars[i], '"')
    ensures Meaning(SpelledAll(chars) + rest, '"', cur, done) == Meaning(rest, '"', cur + Read(chars), done)
  {
    hide Meaning, IsProper;
    if chars == [] {
      assert SpelledAll(chars) + rest == rest && cur + Read(chars) == cur;
    } else {
      var more := SpelledAll(chars[1..]) + rest;
      CharReads(chars[0], '"', more, cur, done);
      CharsRead(chars[1..], rest, cur + [chars[0].c], done);
      hide Spelled;
      assert SpelledAll(chars) + rest == Spelled(chars[0]) + more;
      assert cur + Read(chars) == cur + [chars[0].c] + Read(chars[1..]);
    }
  }

  lemma {:induction false} TextReads(text: string, rest: string, cur: string, done: seq<string>)
    requires NoNul(text) && forall i | 0 <= i < |text| :: text[i] != '\''
    ensures Meaning(text + rest, '\'', cur, done) == Meaning(rest, '\'', cur + text, done)
  {
    if text == "" {
      assert text + rest == rest && cur + text == cur;
    } else {
      assert (text + rest)[0] == text[0] && (text + rest)[1..] == text[1..] + rest;
      TextReads(text[1..], rest, cur + [text[0]], done);
      assert cur + text == cur + [text[0]] + text[1..];
    }
  }

  lemma OpensQuote(q: char, rest: string, cur: string, done: seq<string>)
    requires q == '"' || q == '\''
    ensures Meaning([q] + rest, '\0', cur, done) == Meaning(rest, q, cur, done)
    ensures Meaning([q] + rest, q, cur, done) == Meaning(rest, '\0', cur, done)
  {
    assert ([q] + rest)[1..] == rest;
  }

  ghost predicate NoNulPiece(p: Piece) {
    match p
    case Bare(ch) => ch.c != '\0'
    case Single(text) => NoNul(text)
    case Double(chars) => NoNulChars(chars)
  }

  lemma PieceReads(p: Piece, rest: string, cur: string, done: seq<string>)
    requires IsPiece(p) && NoNulPiece(p)
    ensures Meaning(SpelledPiece(p) + rest, '\0', cur, done) == Meaning(rest, '\0', cur + ReadPiece(p), done)
  {
    hide Meaning, IsProper, NoNul, NoNulChars, SpelledAll, Read;
    match p
    case Bare(ch) =>
      CharReads(ch, '\0', rest, cur, done);
    case Single(text) =>
      TextReads(text, ['\''] + rest, cur, done);
      BetweenQuotes('\'', text, text, rest, cur, done);
    case Double(chars) =>
      CharsRead(chars, ['"'] + rest, cur, done);
      BetweenQuotes('"', SpelledAll(chars), Read(chars), rest, cur, done);
  }

  /** Quotes around a text that reads as `read` inside them. */
  lemma BetweenQuotes(q: char, text: string, read: string, rest: string, cur: string, done: seq<string>)
    requires q == '"' || q == '\''
    requires Meaning(text + ([q] + rest), q, cur, done) == Meaning([q] + rest, q, cur + read, done)
    ensures Meaning([q] + text + [q] + rest, '\0', cur, done) == Meaning(rest, '\0', cur + read, done)
  {
    hide Meaning;
    OpensQuote(q, text + ([q] + rest), cur, done);
    OpensQuote(q, rest, cur + read, done);
    assert [q] + text + [q] + rest == [q] + (text + ([q] + rest));
  }

  ghost predicate NoNulWord(w: seq<Piece>) {
    forall p | p in w :: NoNulPiece(p)
  }

  lemma {:induction false} WordReads(w: seq<Piece>, rest: string, cur: string, done: seq<string>)
    requires IsWord(w) && NoNulWord(w)
    ensures Meaning(SpelledWord(w) + rest, '\0', cur, done) == Meaning(rest, '\0', cur + ReadWord(w), done)
  {
    hide Meaning, IsPiece, NoNulPiece, SpelledPiece, ReadPiece;
    if w == [] {
      assert SpelledWord(w) + rest == rest && cur + ReadWord(w) == cur;
    } else {
      var more := SpelledWord(w[1..]) + rest;
      assert w[0] in w;
      PieceReads(w[0], more, cur, done);
      WordReads(w[1..], rest, cur + ReadPiece(w[0]), done);
      assert SpelledWord(w) + rest == SpelledPiece(w[0]) + more;
      assert cur + ReadWord(w) == cur + ReadPiece(w[0]) + ReadWord(w[1..]);
    }
  }

  /** A written piece starts with something other than white space. */
  lemma PieceStarts(p: Piece)
    requires IsPiece(p)
    ensures SpelledPiece(p) != "" && !IsSpace(SpelledPiece(p)[0])
  {
  }

  lemma {:induction false} BlankSkipped(blank: string, rest: string)
    requires (forall k | 0 <= k < |blank| :: IsSpace(blank[k])) && (rest == "" || !IsSpace(rest[0]))
    ensures SkipSpaces(blank + rest) == rest
  {
    hide IsSpace;
    if blank == "" {
      assert blank + rest == rest;
    } else {
      assert (blank + rest)[1..] == blank[1..] + rest;
      BlankSkipped(blank[1..], rest);
    }
  }

  /** White space ends an argument, and all of it is skipped. */
  lemma BlankReads(blank: string, rest: string, cur: string, done: seq<string>)
    requires blank != "" && (forall k | 0 <= k < |blank| :: IsSpace(blank[k])) && (rest == "" || !IsSpace(rest[0]))
    ensures Meaning(blank + rest, '\0', cur, done) == Meaning(rest, '\0', "", done + [cur])
  {
    hide IsSpace, Meaning, SkipSpaces;
    var all := blank + rest;
    MeaningAt(all, 0, '\0', cur, done);
    assert all[0..] == all && all[1..] == blank[1..] + rest && all[0] == blank[0];
    BlankSkipped(blank[1..], rest);
  }

  lemma {:induction false} WordsRead(more: seq<Word>, cur: string, done: seq<string>)
    requires AreWords(more) && forall i | 0 <= i < |more| :: NoNulWord(more[i].pieces)
    ensures Meaning(SpelledWords(more), '\0', cur, done) ==
      if |done| + 1 + |more| >= INT_MAX then TooMany else Args(done + [cur] + ReadWords(more))
    decreases |more|
  {
    hide Meaning, IsWord, NoNulWord, SpelledWord, ReadWord, IsSpace;
    if more == [] {
      MeaningOfEnd('\0', cur, done);
      assert done + [cur] + [] == done + [cur];
    } else {
      OneWordReads(more, cur, done);
      WordsRead(more[1..], ReadWord(more[0].pieces), done + [cur]);
      assert done + [cur] + [ReadWord(more[0].pieces)] + ReadWords(more[1..]) == done + [cur] + ReadWords(more);
    }
  }

  lemma OneWordReads(more: seq<Word>, cur: string, done: seq<string>)
    requires more != [] && AreWords(more) && NoNulWord(more[0].pieces)
    ensures Meaning(SpelledWords(more), '\0', cur, done) == Meaning(SpelledWords(more[1..]), '\0', ReadWord(more[0].pieces), done + [cur])
  {
    hide Meaning, IsWord, NoNulWord, SpelledWord, ReadWord, IsSpace;
    var w, rest := more[0], SpelledWords(more[1..]);
    var word := SpelledWord(w.pieces) + rest;
    WordStarts(w.pieces, rest, more);
    BlankReads(w.blank, word, cur, done);
    WordReads(w.pieces, rest, "", done + [cur]);
    assert SpelledWords(more) == w.blank + word && "" + ReadWord(w.pieces) == ReadWord(w.pieces);
  }

  lemma WordStarts(w: seq<Piece>, rest: string, more: seq<Word>)
    requires more != [] && AreWords(more) && w == more[0].pieces && rest == SpelledWords(more[1..])
    ensures var word := SpelledWord(w) + rest; word == "" || !IsSpace(word[0])
  {
    hide IsSpace, IsPiece, SpelledPiece;
    if w != [] {
      assert w[0] in w;
      PieceStarts(w[0]);
    } else {
      assert |more| == 1;
    }
  }

  /**
   However arguments are written, with or without quotes, with backslashes, with any white space between them, the line means
   these arguments; white space at either end stands beside an empty one.
   */
  lemma LineReads(first: seq<Piece>, more: seq<Word>)
    requires IsWord(first) && NoNulWord(first) && AreWords(more) && forall i | 0 <= i < |more| :: NoNulWord(more[i].pieces)
    ensures Meaning(SpelledLine(first, more), '\0', "", []) ==
      if 1 + |more| >= INT_MAX then TooMany else Args([ReadWord(first)] + ReadWords(more))
  {
    hide Meaning, IsWord, NoNulWord, SpelledWord, ReadWord, AreWords;
    WordReads(first, SpelledWords(more), "", []);
    assert "" + ReadWord(first) == ReadWord(first);
    WordsRead(more, ReadWord(first), []);
    assert [] + [ReadWord(first)] + ReadWords(more) == [ReadWord(first)] + ReadWords(more);
  }

  /** A C string: `a` with its NUL, at `p`. */
  ghost predicate StringAt(written: string, p: nat, a: string) {
    p + |a| < |written| && written[p..p + |a|] == a && written[p + |a|] == '\0'
  }

  lemma {:induction false} FlatHolds(args: seq<string>, i: nat)
    requires i < |args|
    ensures Flat(args[..i]) + args[i] + "\0" <= Flat(args)
  {
    if i < |args| - 1 {
      var front := args[..|args| - 1];
      FlatHolds(front, i);
      assert front[..i] == args[..i];
    }
  }

  /** So splitting a quoted command line leaves every argument where its pointer says. */
  lemma QuotedLineSplits(argv: seq<string>, result: Split<nat>, written: string)
    requires (forall a <- argv :: NoNul(a)) && 1 <= |argv| < INT_MAX
    requires Answers(result, Meaning(Quoted(argv), '\0', "", []), written)
    ensures result.Args? && |result.args| == |argv|
    ensures forall i | 0 <= i < |argv| :: StringAt(written, result.args[i], argv[i])
  {
    SplitUndoesQuote(argv);
    hide Meaning, Quoted, Flat;
    assert Starts(result.args, argv) && Flat(argv) <= written;
    forall i | 0 <= i < |argv| ensures StringAt(written, result.args[i], argv[i]) {
      FlatHolds(argv, i);
      PlacedAt(Flat(argv[..i]), argv[i], written);
    }
  }

  lemma PlacedAt(before: string, a: string, written: string)
    requires before + a + "\0" <= written
    ensures StringAt(written, |before|, a)
  {
    var q := before + a + "\0";
    assert q[|before|..|before| + |a|] == a && q[|before| + |a|] == '\0';
    assert written[|before|..|before| + |a|] == q[|before|..|before| + |a|];
  }
}
