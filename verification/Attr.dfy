/**
 Looking up attributes in attr.c: the stack of attribute files that is adjusted from one path to
 the next, and the queue of states that macros keep filling.
 */
module Attr {
  import opened Wrappers

  /** What an attribute is set to; one that nothing has set is unknown, and has no value. */
  datatype Value = True | False | Unset | Text(text: string)

  datatype State = State(attr: nat, setto: Value)

  /** A line of an attributes file. */
  datatype Match = Macro(attr: nat, states: seq<State>) | Rule(pattern: string, states: seq<State>)

  /** The contents of one file; the ones of directories carry the directory. */
  datatype Frame = Frame(origin: Option<string>, attrs: seq<Match>)

  /** The attributes files, which do not change. */
  datatype Files = Files(builtin: seq<Match>, system: Option<seq<Match>>, home: Option<seq<Match>>, info: Option<seq<Match>>,
                         directory: string -> seq<Match>)

  // ---------- the frames a path needs ----------

  /** Where the component of `dir` that follows position `b` ends. */
  function NameEnd(dir: string, b: nat): (e: nat)
    requires b <= |dir|
    ensures b <= e <= |dir| && (e == |dir| || dir[e] == '/') && forall i | b <= i < e :: dir[i] != '/'
    decreases |dir| - b
  {
    if b == |dir| || dir[b] == '/' then b else NameEnd(dir, b + 1)
  }

  function NextDir(dir: string, b: nat): (e: nat)
    requires b < |dir|
    ensures b < e <= |dir| && (e == |dir| || dir[e] == '/')
  {
    if dir[b] == '/' then NameEnd(dir, b + 1) else NameEnd(dir, b)
  }

  function DirFrame(files: Files, dir: string): Frame {
    Frame(Some(dir), files.directory(dir))
  }

  /** One frame for each leading directory of `dir` that is longer than `b`. */
  function DirFrames(files: Files, dir: string, b: nat): seq<Frame>
    decreases |dir| - b
  {
    if b >= |dir| then []
    else
      var e := NextDir(dir, b);
      [DirFrame(files, dir[..e])] + DirFrames(files, dir, e)
  }

  function OptionalFrame(attrs: Option<seq<Match>>): seq<Frame> {
    match attrs
    case None => []
    case Some(a) => [Frame(None, a)]
  }

  function BaseFrames(files: Files): seq<Frame> {
    [Frame(None, files.builtin)] + OptionalFrame(files.system) + OptionalFrame(files.home) + [DirFrame(files, "")]
  }

  function InfoFrame(files: Files): Frame {
    Frame(None, if files.info.Some? then files.info.value else [])
  }

  /** The whole stack for paths in `dir`, the top at the end. */
  function FramesFor(files: Files, dir: string): seq<Frame> {
    BaseFrames(files) + DirFrames(files, dir, 0) + [InfoFrame(files)]
  }

  /** May the frame of directory `e` stay for a path whose directory is its first `dirlen` characters? */
  predicate Stays(e: string, path: string, dirlen: nat)
    requires dirlen <= |path|
  {
    |e| <= dirlen && e == path[..|e|] && (e == "" || (|e| < |path| && path[|e|] == '/'))
  }

  /** A path together with the length of its directory part. */
  predicate DirectoryOf(path: string, dirlen: nat) {
    dirlen <= |path| && (dirlen > 0 ==> dirlen < |path| && path[dirlen] == '/')
  }

  /** If `dir` starts with `e` and a separator, the component found is the same until `e` is reached. */
  lemma NextDirAgrees(d0: string, dir: string, b: nat, e: nat)
    requires b < e <= |d0| && e <= |dir| && d0[..e] == dir[..e] && (e == |dir| || dir[e] == '/') && NextDir(d0, b) <= e
    ensures NextDir(dir, b) == NextDir(d0, b)
  {
    var n := NextDir(d0, b);
    var from := if d0[b] == '/' then b + 1 else b;
    assert d0[b] == d0[..e][b] == dir[b];
    assert forall i | from <= i < n :: dir[i] == dir[..e][i] == d0[i] && d0[i] != '/';
    if n < e {
      assert dir[n] == dir[..e][n] == d0[n];
    }
    NameEndIs(dir, from, n);
  }

  lemma {:induction false} NameEndIs(dir: string, b: nat, n: nat)
    requires b <= n <= |dir| && (n == |dir| || dir[n] == '/') && forall i | b <= i < n :: dir[i] != '/'
    ensures NameEnd(dir, b) == n
    decreases n - b
  {
    if b < n {
      NameEndIs(dir, b + 1, n);
    }
  }

  /** The directories at which the frames from `b` on end. */
  ghost predicate IsEnd(dir: string, b: nat, e: nat)
    decreases |dir| - b
  {
    b == e || (b < |dir| && IsEnd(dir, NextDir(dir, b), e))
  }

  lemma {:induction false} EndsAscend(dir: string, b: nat, e: nat)
    requires IsEnd(dir, b, e) && b <= |dir|
    ensures b <= e <= |dir|
    decreases |dir| - b
  {
    if b != e {
      EndsAscend(dir, NextDir(dir, b), e);
    }
  }

  /** How many frames end at or before `e`. */
  ghost function CountTo(dir: string, b: nat, e: nat): nat
    requires IsEnd(dir, b, e)
    decreases |dir| - b
  {
    if b == e then 0 else 1 + CountTo(dir, NextDir(dir, b), e)
  }

  /** Frames up to a common directory are common; those beyond are the ones still missing. */
  lemma {:induction false} SharedFrames(files: Files, d0: string, dir: string, b: nat, e: nat)
    requires b <= |d0| && IsEnd(d0, b, e) && e <= |d0| && e <= |dir| && d0[..e] == dir[..e] && (e == |dir| || dir[e] == '/')
    ensures var k := CountTo(d0, b, e);
      k <= |DirFrames(files, d0, b)| && DirFrames(files, dir, b) == DirFrames(files, d0, b)[..k] + DirFrames(files, dir, e)
    decreases |d0| - b
  {
    hide NextDir;
    if b != e {
      var n := NextDir(d0, b);
      EndsAscend(d0, n, e);
      NextDirAgrees(d0, dir, b, e);
      SharedFrames(files, d0, dir, n, e);
      assert d0[..n] == d0[..e][..n] == dir[..e][..n] == dir[..n];
      FirstFrame([DirFrame(files, d0[..n])], DirFrames(files, d0, n), CountTo(d0, n, e), DirFrames(files, dir, e));
    }
  }

  lemma FirstFrame(first: seq<Frame>, more: seq<Frame>, k: nat, rest: seq<Frame>)
    requires |first| == 1 && k <= |more|
    ensures (first + more)[..k + 1] + rest == first + (more[..k] + rest)
  {
  }

  /** Each frame is that of a directory at which frames end. */
  lemma {:induction false} FrameAt(files: Files, dir: string, b: nat, j: nat) returns (e: nat)
    requires b <= |dir| && 0 < j <= |DirFrames(files, dir, b)|
    ensures b < e <= |dir| && IsEnd(dir, b, e) && CountTo(dir, b, e) == j && DirFrames(files, dir, b)[j - 1] == DirFrame(files, dir[..e])
    decreases |dir| - b
  {
    hide NextDir;
    var n := NextDir(dir, b);
    if j == 1 {
      e := n;
    } else {
      e := FrameAt(files, dir, n, j - 1);
    }
  }

  /** The top `j` frames of directories end with that of the first `e` characters of `dir`. */
  ghost predicate IsTop(files: Files, dir: string, j: nat, e: nat) {
    && j <= |DirFrames(files, dir, 0)| && e <= |dir| && IsEnd(dir, 0, e) && CountTo(dir, 0, e) == j
    && (j > 0 ==> DirFrames(files, dir, 0)[j - 1] == DirFrame(files, dir[..e]))
  }

  lemma TopDirectory(files: Files, dir: string, j: nat) returns (e: nat)
    requires j <= |DirFrames(files, dir, 0)|
    ensures IsTop(files, dir, j, e)
  {
    hide DirFrames, NextDir;
    if j == 0 {
      e := 0;
    } else {
      e := FrameAt(files, dir, 0, j);
    }
  }

  lemma TopFrame(files: Files, base: seq<Frame>, dir: string, j: nat, e: nat)
    requires IsTop(files, dir, j, e) && base == BaseFrames(files)
    ensures e <= |dir| && j <= |DirFrames(files, dir, 0)| && (j == 0 <==> e == 0)
    ensures var stack := base + DirFrames(files, dir, 0)[..j]; stack != [] && stack[|stack| - 1] == DirFrame(files, dir[..e])
  {
    hide DirFrames, NextDir;
    BaseEnds(files);
    if e == 0 {
      assert dir[..e] == "";
    }
  }

  /** What is left after the pops belongs to the path, and what it lacks starts where it ends. */
  lemma KeptFrames(files: Files, path: string, dirlen: nat, d0: string, j: nat, e: nat)
    requires DirectoryOf(path, dirlen) && IsTop(files, d0, j, e) && Stays(d0[..e], path, dirlen)
    ensures e <= dirlen && d0[..e] == path[..dirlen][..e] && |d0[..e]| == e && (e == 0 || e == dirlen || path[e] == '/')
    ensures DirFrames(files, d0, 0)[..j] + DirFrames(files, path[..dirlen], e) == DirFrames(files, path[..dirlen], 0)
  {
    hide DirFrames, NextDir;
    var dir := path[..dirlen];
    assert path[..e] == dir[..e];
    if e > 0 {
      SharedFrames(files, d0, dir, 0, e);
    }
  }

  class AttrCheck {
    var stack: seq<Frame>

    /** Nothing was looked up, or some path was last. */
    ghost predicate Valid(files: Files)
      reads this
    {
      stack == [] || exists dir :: stack == FramesFor(files, dir)
    }

    constructor ()
      ensures stack == []
    {
      stack := [];
    }

    /** push_stack */
    method Push(elem: Option<seq<Match>>, origin: Option<string>)
      modifies this`stack
      ensures stack == old(stack) + if elem.Some? then [Frame(origin, elem.value)] else []
    {
      if elem.Some? {
        stack := stack + [Frame(origin, elem.value)];
      }
    }

    /** bootstrap_attr_stack */
    method Bootstrap(files: Files)
      requires Valid(files)
      modifies this`stack
      ensures stack != [] && exists dir :: stack == FramesFor(files, dir)
    {
      if stack != [] {
        return;
      }
      Push(Some(files.builtin), None);
      Push(files.system, None);
      Push(files.home, None);
      Push(Some(files.directory("")), Some(""));
      Push(Some(if files.info.Some? then files.info.value else []), None);
      assert stack == FramesFor(files, "");
    }

    /** Pops the frames of directories that do not lead to the path. */
    method PopOthers(files: Files, path: string, dirlen: nat, ghost d0: string)
      requires DirectoryOf(path, dirlen) && stack == BaseFrames(files) + DirFrames(files, d0, 0)
      modifies this`stack
      ensures stack != [] && stack[|stack| - 1].origin.Some?
      ensures var dir, kept := path[..dirlen], stack[|stack| - 1].origin.value;
        |kept| <= dirlen && kept == dir[..|kept|] && (kept == "" || |kept| == dirlen || path[|kept|] == '/')
        && stack + DirFrames(files, dir, |kept|) == BaseFrames(files) + DirFrames(files, dir, 0)
    {
      hide BaseFrames, DirFrames, NextDir, IsTop;
      ghost var base, dir, all0 := BaseFrames(files), path[..dirlen], DirFrames(files, d0, 0);
      ghost var j := |all0|;
      ghost var e: nat := TopDirectory(files, d0, j);
      assert all0[..j] == all0;
      TopFrame(files, base, d0, j, e);
      while stack[|stack| - 1].origin.Some?
        invariant 0 <= j <= |all0| && stack == base + all0[..j] && IsTop(files, d0, j, e) && stack != []
        decreases j
      {
        TopFrame(files, base, d0, j, e);
        var elem := stack[|stack| - 1];
        if Stays(elem.origin.value, path, dirlen) {
          break;
        }
        stack := stack[..|stack| - 1];
        j := j - 1;
        e := TopDirectory(files, d0, j);
        TopFrame(files, base, d0, j, e);
      }
      TopFrame(files, base, d0, j, e);
      KeptFrames(files, path, dirlen, d0, j, e);
      assert stack + DirFrames(files, dir, e) == base + (all0[..j] + DirFrames(files, dir, e));
    }

    /** prepare_attr_stack: the stack depends on the path alone. */
    method Prepare(files: Files, path: string, dirlen: nat)
      requires Valid(files) && DirectoryOf(path, dirlen)
      modifies this`stack
      ensures stack == FramesFor(files, path[..dirlen])
    {
      hide BaseFrames, DirFrames, NextDir, InfoFrame;
      Bootstrap(files);
      ghost var d0 :| stack == FramesFor(files, d0);
      ghost var base, dir := BaseFrames(files), path[..dirlen];
      var info := stack[|stack| - 1];
      stack := stack[..|stack| - 1];
      PopOthers(files, path, dirlen, d0);
      var pathbuf := stack[|stack| - 1].origin.value;
      while |pathbuf| < dirlen
        invariant |pathbuf| <= dirlen && pathbuf == dir[..|pathbuf|] && (pathbuf == "" || |pathbuf| == dirlen || path[|pathbuf|] == '/')
        invariant stack + DirFrames(files, dir, |pathbuf|) == base + DirFrames(files, dir, 0)
        decreases dirlen - |pathbuf|
      {
        var before := |pathbuf|;
        var len := NextComponent(path, dirlen, before);
        if |pathbuf| > 0 {
          pathbuf := pathbuf + "/";
        }
        pathbuf := pathbuf + path[|pathbuf|..len];
        assert pathbuf == dir[..len];
        FramesStep(files, dir, before);
        Push(Some(files.directory(pathbuf)), Some(pathbuf));
      }
      NoFrames(files, dir);
      stack := stack + [info];
    }
  }

  /** The scan for the end of the next component in prepare_attr_stack. */
  method NextComponent(path: string, dirlen: nat, from: nat) returns (len: nat)
    requires from < dirlen <= |path|
    ensures len == NextDir(path[..dirlen], from)
  {
    len := from;
    if len < dirlen && path[len] == '/' {
      len := len + 1;
    }
    ghost var start := len;
    while len < dirlen && path[len] != '/'
      invariant start <= len <= dirlen && forall i | start <= i < len :: path[i] != '/'
    {
      len := len + 1;
    }
    NameEndIs(path[..dirlen], start, len);
  }

  lemma BaseEnds(files: Files)
    ensures var base := BaseFrames(files); base != [] && base[|base| - 1] == DirFrame(files, "")
  {
  }

  lemma FramesStep(files: Files, dir: string, b: nat)
    requires b < |dir|
    ensures DirFrames(files, dir, b) == [DirFrame(files, dir[..NextDir(dir, b)])] + DirFrames(files, dir, NextDir(dir, b))
  {
  }

  lemma NoFrames(files: Files, dir: string)
    ensures DirFrames(files, dir, |dir|) == []
  {
  }

  // ---------- filling in the states ----------

  type Values = seq<Option<Value>>

  type Macros = seq<Option<seq<State>>>

  ghost function Unknown(values: Values): nat {
    if values == [] then 0 else Unknown(values[..|values| - 1]) + if values[|values| - 1].None? then 1 else 0
  }

  lemma {:induction false} SetOne(values: Values, i: nat, v: Value)
    requires i < |values| && values[i].None?
    ensures Unknown(values) > 0 && Unknown(values[i := Some(v)]) == Unknown(values) - 1
  {
    var last := |values| - 1;
    var after := values[i := Some(v)];
    if i == last {
      assert after[..last] == values[..last];
    } else {
      SetOne(values[..last], i, v);
      assert after[..last] == values[..last][i := Some(v)];
    }
  }

  lemma {:induction false} NoneUnknown(values: Values)
    requires Unknown(values) == 0
    ensures forall i | 0 <= i < |values| :: values[i].Some?
  {
    if values != [] {
      NoneUnknown(values[..|values| - 1]);
      assert forall i | 0 <= i < |values| - 1 :: values[i] == values[..|values| - 1][i];
    }
  }

  ghost predicate InRange(states: seq<State>, n: nat) {
    forall s | s in states :: s.attr < n
  }

  ghost predicate MacrosInRange(macros: Macros, n: nat) {
    |macros| == n && forall m | m in macros && m.Some? :: InRange(m.value, n)
  }

  /** The states a newly set attribute adds: those of its macro, if it is set to true. */
  function Expansion(macros: Macros, s: State): seq<State>
    requires s.attr < |macros|
  {
    if macros[s.attr].Some? && s.setto == True then macros[s.attr].value else []
  }

  /** The states are taken from the end; one that sets an unknown attribute puts the states of its macro there. */
  ghost function FillOne(values: Values, macros: Macros, todo: seq<State>): (r: Values)
    requires MacrosInRange(macros, |values|) && InRange(todo, |values|)
    ensures |r| == |values|
    decreases Unknown(values), |todo|
  {
    if todo == [] then values
    else
      var s, rest := todo[|todo| - 1], todo[..|todo| - 1];
      if values[s.attr].Some? then FillOne(values, macros, rest)
      else
        SetOne(values, s.attr, s.setto);
        FillOne(values[s.attr := Some(s.setto)], macros, rest + Expansion(macros, s))
  }

  /** What is known stays, the first assignment wins, and nothing that was asked for is left unknown. */
  lemma {:induction false} FillOneKeeps(values: Values, macros: Macros, todo: seq<State>)
    requires MacrosInRange(macros, |values|) && InRange(todo, |values|)
    ensures var r := FillOne(values, macros, todo);
      && (forall i | 0 <= i < |values| && values[i].Some? :: r[i] == values[i])
      && (forall s | s in todo :: r[s.attr].Some?)
    decreases Unknown(values), |todo|
  {
    if todo != [] {
      var s, rest := todo[|todo| - 1], todo[..|todo| - 1];
      assert todo == rest + [s];
      if values[s.attr].Some? {
        FillOneKeeps(values, macros, rest);
      } else {
        SetOne(values, s.attr, s.setto);
        FillOneKeeps(values[s.attr := Some(s.setto)], macros, rest + Expansion(macros, s));
      }
    }
  }

  /** Macros are expanded all the way, cyclic ones too: if one was set to true, all its states are known. */
  lemma {:induction false} FillOneExpands(values: Values, macros: Macros, todo: seq<State>, i: nat)
    requires MacrosInRange(macros, |values|) && InRange(todo, |values|) && i < |values| && values[i].None?
    requires FillOne(values, macros, todo)[i] == Some(True) && macros[i].Some?
    ensures forall s | s in macros[i].value :: s.attr < |values| && FillOne(values, macros, todo)[s.attr].Some?
    decreases Unknown(values), |todo|
  {
    if todo != [] {
      var s, rest := todo[|todo| - 1], todo[..|todo| - 1];
      if values[s.attr].Some? {
        FillOneExpands(values, macros, rest, i);
      } else {
        SetOne(values, s.attr, s.setto);
        var after, more := values[s.attr := Some(s.setto)], rest + Expansion(macros, s);
        FillOneKeeps(after, macros, more);
        if s.attr != i {
          FillOneExpands(after, macros, more, i);
        } else {
          assert macros[i] in macros;
        }
      }
    }
  }

  /** An attribute that gets a value gets it from one of the states, or from a macro among those that get expanded. */
  lemma {:induction false} FillOneInvents(values: Values, macros: Macros, todo: seq<State>, i: nat)
    requires MacrosInRange(macros, |values|) && InRange(todo, |values|) && i < |values| && values[i].None?
    requires FillOne(values, macros, todo)[i].Some?
    ensures var r := FillOne(values, macros, todo);
      || State(i, r[i].value) in todo
      || exists m | 0 <= m < |values| :: r[m] == Some(True) && values[m].None? && macros[m].Some? && State(i, r[i].value) in macros[m].value
    decreases Unknown(values), |todo|
  {
    if todo != [] {
      var s, rest := todo[|todo| - 1], todo[..|todo| - 1];
      assert todo == rest + [s];
      if values[s.attr].Some? {
        FillOneInvents(values, macros, rest, i);
      } else {
        SetOne(values, s.attr, s.setto);
        var after, more := values[s.attr := Some(s.setto)], rest + Expansion(macros, s);
        FillOneKeeps(after, macros, more);
        if s.attr != i {
          FillOneInvents(after, macros, more, i);
        }
      }
    }
  }

  /** Without macros, the last of the states for an attribute is the one that counts. */
  lemma {:induction false} LastStateCounts(values: Values, macros: Macros, todo: seq<State>, i: nat, k: nat)
    requires MacrosInRange(macros, |values|) && InRange(todo, |values|) && i < |values| && values[i].None?
    requires (forall s | s in todo :: macros[s.attr].None?) && k < |todo| && todo[k].attr == i && forall j | k < j < |todo| :: todo[j].attr != i
    ensures FillOne(values, macros, todo)[i] == Some(todo[k].setto)
    decreases |todo|
  {
    var s, rest := todo[|todo| - 1], todo[..|todo| - 1];
    assert todo == rest + [s];
    if values[s.attr].Some? {
      LastStateCounts(values, macros, rest, i, k);
    } else {
      SetOne(values, s.attr, s.setto);
      var after := values[s.attr := Some(s.setto)];
      assert rest + Expansion(macros, s) == rest;
      if k == |todo| - 1 {
        FillOneKeeps(after, macros, rest);
      } else {
        LastStateCounts(after, macros, rest, i, k);
      }
    }
  }

  /** fill_one: it ends for any macros, and counts what is unknown. */
  method FillOneLoop(value: array<Option<Value>>, macros: Macros, states: seq<State>, rem0: nat) returns (rem: nat)
    requires MacrosInRange(macros, value.Length) && InRange(states, value.Length) && rem0 == Unknown(value[..])
    modifies value
    ensures value[..] == FillOne(old(value[..]), macros, states) && rem == Unknown(value[..])
  {
    hide Unknown, FillOne;
    var todo := states;
    rem := rem0;
    while rem > 0 && todo != []
      invariant InRange(todo, value.Length) && rem == Unknown(value[..])
      invariant FillOne(value[..], macros, todo) == FillOne(old(value[..]), macros, states)
      decreases rem, |todo|
    {
      var state := todo[|todo| - 1];
      ghost var was, before := value[..], todo;
      assert state in before;
      todo := todo[..|todo| - 1];
      FillOneStep(was, macros, before);
      if value[state.attr].None? {
        SetOne(was, state.attr, state.setto);
        value[state.attr] := Some(state.setto);
        assert value[..] == was[state.attr := Some(state.setto)];
        rem := rem - 1;
        if macros[state.attr].Some? && state.setto == True {
          assert macros[state.attr] in macros;
          todo := todo + macros[state.attr].value;
        }
        assert todo == before[..|before| - 1] + Expansion(macros, state);
      }
    }
    NothingToFill(value[..], macros, todo);
  }

  lemma FillOneStep(values: Values, macros: Macros, todo: seq<State>)
    requires MacrosInRange(macros, |values|) && InRange(todo, |values|) && todo != []
    ensures var s, rest := todo[|todo| - 1], todo[..|todo| - 1];
      && s in todo && InRange(rest, |values|)
      && (values[s.attr].None? ==> macros[s.attr] in macros && InRange(rest + Expansion(macros, s), |values|))
      && FillOne(values, macros, todo) ==
        if values[s.attr].Some? then FillOne(values, macros, rest)
        else FillOne(values[s.attr := Some(s.setto)], macros, rest + Expansion(macros, s))
  {
    var s := todo[|todo| - 1];
    assert macros[s.attr] in macros;
  }

  lemma {:induction false} NothingToFill(values: Values, macros: Macros, todo: seq<State>)
    requires MacrosInRange(macros, |values|) && InRange(todo, |values|) && (Unknown(values) == 0 || todo == [])
    ensures FillOne(values, macros, todo) == values
    decreases |todo|
  {
    if todo != [] {
      NoneUnknown(values);
      NothingToFill(values, macros, todo[..|todo| - 1]);
    }
  }

  // ---------- all rules for a path ----------

  /** Does a pattern of the attributes file in a directory match a path? */
  type Matcher = (string, string, string) -> bool

  ghost predicate AttrsOk(attrs: seq<Match>, n: nat) {
    forall m | m in attrs :: InRange(m.states, n) && (m.Macro? ==> m.attr < n)
  }

  ghost predicate FramesOk(stack: seq<Frame>, n: nat) {
    forall f | f in stack :: AttrsOk(f.attrs, n)
  }

  ghost predicate FilesOk(files: Files, n: nat) {
    && AttrsOk(files.builtin, n) && (files.system.Some? ==> AttrsOk(files.system.value, n))
    && (files.home.Some? ==> AttrsOk(files.home.value, n)) && (files.info.Some? ==> AttrsOk(files.info.value, n))
    && forall dir :: AttrsOk(files.directory(dir), n)
  }

  lemma {:induction false} DirFramesOk(files: Files, dir: string, b: nat, n: nat)
    requires FilesOk(files, n)
    ensures FramesOk(DirFrames(files, dir, b), n)
    decreases |dir| - b
  {
    if b < |dir| {
      DirFramesOk(files, dir, NextDir(dir, b), n);
    }
  }

  lemma FramesForOk(files: Files, dir: string, n: nat)
    requires FilesOk(files, n)
    ensures FramesOk(FramesFor(files, dir), n)
  {
    hide AttrsOk;
    DirFramesOk(files, dir, 0, n);
    assert AttrsOk([], n) by {
      NoAttrs(n);
    }
  }

  lemma NoAttrs(n: nat)
    ensures AttrsOk([], n)
  {
  }

  function OrElse<T>(a: Option<T>, b: Option<T>): Option<T> {
    if a.Some? then a else b
  }

  /** The macro that an attribute stands for: the last definition in the highest frame that has one. */
  ghost function MacroIn(attrs: seq<Match>, a: nat): Option<seq<State>> {
    if attrs == [] then None
    else
      var last := |attrs| - 1;
      if attrs[last].Macro? && attrs[last].attr == a then Some(attrs[last].states) else MacroIn(attrs[..last], a)
  }

  ghost function MacroOf(stack: seq<Frame>, a: nat): Option<seq<State>> {
    if stack == [] then None else OrElse(MacroIn(stack[|stack| - 1].attrs, a), MacroOf(stack[..|stack| - 1], a))
  }

  ghost function MacrosOf(stack: seq<Frame>, n: nat): (macros: Macros)
    ensures |macros| == n && forall a | 0 <= a < n :: macros[a] == MacroOf(stack, a)
  {
    seq(n, a requires 0 <= a < n => MacroOf(stack, a))
  }

  lemma {:induction false} MacroInOk(attrs: seq<Match>, a: nat, n: nat)
    requires AttrsOk(attrs, n)
    ensures MacroIn(attrs, a).Some? ==> InRange(MacroIn(attrs, a).value, n)
  {
    if attrs != [] {
      MacroInOk(attrs[..|attrs| - 1], a, n);
    }
  }

  lemma {:induction false} MacroOfOk(stack: seq<Frame>, a: nat, n: nat)
    requires FramesOk(stack, n)
    ensures MacroOf(stack, a).Some? ==> InRange(MacroOf(stack, a).value, n)
  {
    if stack != [] {
      MacroInOk(stack[|stack| - 1].attrs, a, n);
      MacroOfOk(stack[..|stack| - 1], a, n);
    }
  }

  lemma MacrosOfOk(stack: seq<Frame>, n: nat)
    requires FramesOk(stack, n)
    ensures MacrosInRange(MacrosOf(stack, n), n)
  {
    hide MacroOf, InRange;
    forall m | m in MacrosOf(stack, n) && m.Some? ensures InRange(m.value, n) {
      var a :| 0 <= a < n && MacrosOf(stack, n)[a] == m;
      MacroOfOk(stack, a, n);
    }
  }

  function Base(f: Frame): string {
    if f.origin.Some? then f.origin.value else ""
  }

  /** The rules of one frame that match, the last one first. */
  ghost function FillFrame(values: Values, macros: Macros, f: Frame, k: nat, path: string, matches: Matcher): (r: Values)
    requires k <= |f.attrs| && AttrsOk(f.attrs, |values|) && MacrosInRange(macros, |values|)
    ensures |r| == |values|
    decreases k
  {
    if k == 0 then values
    else
      var m := f.attrs[k - 1];
      FillFrame(if m.Rule? && matches(path, m.pattern, Base(f)) then FillOne(values, macros, m.states) else values, macros, f, k - 1, path, matches)
  }

  /** The rules of all frames, from the top down. */
  ghost function FillFrames(values: Values, macros: Macros, stack: seq<Frame>, path: string, matches: Matcher): (r: Values)
    requires FramesOk(stack, |values|) && MacrosInRange(macros, |values|)
    ensures |r| == |values|
    decreases |stack|
  {
    if stack == [] then values
    else
      var f := stack[|stack| - 1];
      FillFrames(FillFrame(values, macros, f, |f.attrs|, path, matches), macros, stack[..|stack| - 1], path, matches)
  }

  lemma {:induction false} FrameIsFull(values: Values, macros: Macros, f: Frame, k: nat, path: string, matches: Matcher)
    requires k <= |f.attrs| && AttrsOk(f.attrs, |values|) && MacrosInRange(macros, |values|) && Unknown(values) == 0
    ensures FillFrame(values, macros, f, k, path, matches) == values
  {
    if k > 0 {
      NothingToFill(values, macros, f.attrs[k - 1].states);
      FrameIsFull(values, macros, f, k - 1, path, matches);
    }
  }

  lemma {:induction false} FramesAreFull(values: Values, macros: Macros, stack: seq<Frame>, path: string, matches: Matcher)
    requires FramesOk(stack, |values|) && MacrosInRange(macros, |values|) && Unknown(values) == 0
    ensures FillFrames(values, macros, stack, path, matches) == values
  {
    if stack != [] {
      FrameIsFull(values, macros, stack[|stack| - 1], |stack[|stack| - 1].attrs|, path, matches);
      FramesAreFull(values, macros, stack[..|stack| - 1], path, matches);
    }
  }

  /** fill */
  method Fill(value: array<Option<Value>>, macros: Macros, stack: seq<Frame>, path: string, matches: Matcher, rem0: nat) returns (rem: nat)
    requires FramesOk(stack, value.Length) && MacrosInRange(macros, value.Length) && rem0 == Unknown(value[..])
    modifies value
    ensures value[..] == FillFrames(old(value[..]), macros, stack, path, matches) && rem == Unknown(value[..])
  {
    hide Unknown, FillOne, FillFrame, AttrsOk, MacrosInRange, InRange;
    rem := rem0;
    var f := |stack|;
    assert stack[..f] == stack;
    while rem > 0 && f > 0
      invariant 0 <= f <= |stack| && FramesOk(stack[..f], value.Length) && rem == Unknown(value[..])
      invariant FillFrames(value[..], macros, stack[..f], path, matches) == FillFrames(old(value[..]), macros, stack, path, matches)
      decreases f
    {
      assert stack[..f][..f - 1] == stack[..f - 1] && stack[..f][f - 1] == stack[f - 1];
      f := f - 1;
      rem := FillFrameLoop(value, macros, stack[f], path, matches, rem);
    }
    if rem == 0 {
      FramesAreFull(value[..], macros, stack[..f], path, matches);
    }
  }

  /** Its inner loop. */
  method FillFrameLoop(value: array<Option<Value>>, macros: Macros, f: Frame, path: string, matches: Matcher, rem0: nat) returns (rem: nat)
    requires AttrsOk(f.attrs, value.Length) && MacrosInRange(macros, value.Length) && rem0 == Unknown(value[..])
    modifies value
    ensures value[..] == FillFrame(old(value[..]), macros, f, |f.attrs|, path, matches) && rem == Unknown(value[..])
  {
    hide Unknown, FillOne, MacrosInRange, InRange;
    rem := rem0;
    var i := |f.attrs|;
    while rem > 0 && i > 0
      invariant 0 <= i <= |f.attrs| && rem == Unknown(value[..])
      invariant FillFrame(value[..], macros, f, i, path, matches) == FillFrame(old(value[..]), macros, f, |f.attrs|, path, matches)
      decreases i
    {
      var a := f.attrs[i - 1];
      i := i - 1;
      if a.Macro? {
        continue;
      }
      if matches(path, a.pattern, Base(f)) {
        rem := FillOneLoop(value, macros, a.states, rem);
      }
    }
    if rem == 0 {
      FrameIsFull(value[..], macros, f, i, path, matches);
    }
  }

  /** determine_macros */
  method DetermineMacros(macro: array<Option<seq<State>>>, stack: seq<Frame>)
    requires FramesOk(stack, macro.Length) && forall a | 0 <= a < macro.Length :: macro[a].None?
    modifies macro
    ensures macro[..] == MacrosOf(stack, macro.Length)
  {
    hide AttrsOk;
    var f := |stack|;
    assert stack[..f] == stack;
    while f > 0
      invariant 0 <= f <= |stack|
      invariant forall a | 0 <= a < macro.Length :: OrElse(macro[a], MacroOf(stack[..f], a)) == MacroOf(stack, a)
    {
      ghost var before := macro[..];
      f := f - 1;
      FrameMacros(macro, stack[f].attrs);
      forall a | 0 <= a < macro.Length ensures OrElse(macro[a], MacroOf(stack[..f], a)) == MacroOf(stack, a) {
        assert stack[..f + 1][..f] == stack[..f] && stack[..f + 1][f] == stack[f];
        assert OrElse(before[a], MacroOf(stack[..f + 1], a)) == MacroOf(stack, a);
      }
    }
  }

  method FrameMacros(macro: array<Option<seq<State>>>, attrs: seq<Match>)
    requires AttrsOk(attrs, macro.Length)
    modifies macro
    ensures forall a | 0 <= a < macro.Length :: macro[a] == OrElse(old(macro[a]), MacroIn(attrs, a))
  {
    hide InRange;
    var i := |attrs|;
    assert attrs[..i] == attrs;
    while i > 0
      invariant 0 <= i <= |attrs|
      invariant forall a | 0 <= a < macro.Length :: OrElse(macro[a], MacroIn(attrs[..i], a)) == OrElse(old(macro[a]), MacroIn(attrs, a))
    {
      var ma := attrs[i - 1];
      assert ma in attrs;
      assert attrs[..i][..i - 1] == attrs[..i - 1] && attrs[..i][i - 1] == ma;
      if ma.Macro? && macro[ma.attr].None? {
        macro[ma.attr] := Some(ma.states);
      }
      i := i - 1;
    }
  }

  // ---------- a lookup ----------

  /** The last separator that something follows ends the directory part. */
  ghost predicate IsDirLength(path: string, dirlen: nat) {
    && dirlen <= |path| && (dirlen > 0 ==> dirlen + 1 < |path| && path[dirlen] == '/')
    && forall i | dirlen < i < |path| - 1 :: path[i] != '/'
  }

  method DirLength(path: string) returns (dirlen: nat)
    ensures IsDirLength(path, dirlen)
  {
    dirlen := 0;
    for i := 0 to |path|
      invariant dirlen <= i && (dirlen > 0 ==> dirlen < i && dirlen + 1 < |path| && path[dirlen] == '/')
      invariant forall j | dirlen < j < i && j < |path| - 1 :: path[j] != '/'
    {
      if path[i] == '/' && i + 1 < |path| {
        dirlen := i;
      }
    }
  }

  ghost function AllUnknown(n: nat): (v: Values)
    ensures |v| == n && forall i | 0 <= i < n :: v[i].None?
  {
    seq(n, i => None)
  }

  lemma {:induction false} AllAreUnknown(v: Values)
    requires forall i | 0 <= i < |v| :: v[i].None?
    ensures Unknown(v) == |v|
  {
    if v != [] {
      AllAreUnknown(v[..|v| - 1]);
    }
  }

  /** The attributes of a path: what the frames for its directory say, and nothing else. */
  ghost function Attributes(files: Files, n: nat, path: string, dirlen: nat, matches: Matcher): Values
    requires FilesOk(files, n) && dirlen <= |path|
  {
    var stack := FramesFor(files, path[..dirlen]);
    FramesForOk(files, path[..dirlen], n);
    MacrosOfOk(stack, n);
    FillFrames(AllUnknown(n), MacrosOf(stack, n), stack, path, matches)
  }

  // ---------- precedence ----------

  /** A line of a file that is read as one for the paths below `base`. */
  datatype Line = Line(line: Match, base: string)

  ghost function Placed(attrs: seq<Match>, base: string): seq<Line> {
    seq(|attrs|, i requires 0 <= i < |attrs| => Line(attrs[i], base))
  }

  ghost function IfThere(attrs: Option<seq<Match>>): seq<Match> {
    if attrs.Some? then attrs.value else []
  }

  /** Is the first `e` characters of `dir` one of the directories that lead to it? */
  ghost predicate IsLeading(dir: string, e: nat) {
    0 < e <= |dir| && (e == |dir| || dir[e] == '/')
  }

  /** The lines of the directories that lead to `dir`, of those longer than `b` and no longer than `e`, the shortest one first. */
  ghost function DirectoryLines(files: Files, dir: string, b: nat, e: nat): seq<Line>
    requires b <= e <= |dir|
    decreases e
  {
    if b == e then []
    else DirectoryLines(files, dir, b, e - 1) + if IsLeading(dir, e) then Placed(files.directory(dir[..e]), dir[..e]) else []
  }

  /** The lines that hold for a directory, those that take precedence last: builtin, system, home, directories from the root on, info. */
  ghost function AllLines(files: Files, dir: string): seq<Line> {
    Placed(files.builtin, "") + Placed(IfThere(files.system), "") + Placed(IfThere(files.home), "")
      + Placed(files.directory(""), "") + DirectoryLines(files, dir, 0, |dir|) + Placed(IfThere(files.info), "")
  }

  ghost predicate Applies(l: Line, path: string, matches: Matcher) {
    l.line.Rule? && matches(path, l.line.pattern, l.base)
  }

  /** The states of all lines that match. */
  ghost function StatesOf(lines: seq<Line>, path: string, matches: Matcher): seq<State> {
    if lines == [] then []
    else
      var last := |lines| - 1;
      StatesOf(lines[..last], path, matches) + if Applies(lines[last], path, matches) then lines[last].line.states else []
  }

  /** The last definition of a macro. */
  ghost function LastMacro(lines: seq<Line>, a: nat): Option<seq<State>> {
    if lines == [] then None
    else
      var last := |lines| - 1;
      if lines[last].line.Macro? && lines[last].line.attr == a then Some(lines[last].line.states) else LastMacro(lines[..last], a)
  }

  lemma {:induction false} LinesJoin(x: seq<Line>, y: seq<Line>, path: string, matches: Matcher, a: nat)
    ensures StatesOf(x + y, path, matches) == StatesOf(x, path, matches) + StatesOf(y, path, matches)
    ensures LastMacro(x + y, a) == OrElse(LastMacro(y, a), LastMacro(x, a))
  {
    hide Applies;
    if y == [] {
      assert x + y == x;
    } else {
      assert (x + y)[..|x + y| - 1] == x + y[..|y| - 1] && (x + y)[|x + y| - 1] == y[|y| - 1];
      LinesJoin(x, y[..|y| - 1], path, matches, a);
    }
  }

  /** The lines of a stack, the top last. */
  ghost function StackLines(stack: seq<Frame>): seq<Line> {
    if stack == [] then [] else StackLines(stack[..|stack| - 1]) + Placed(stack[|stack| - 1].attrs, Base(stack[|stack| - 1]))
  }

  lemma {:induction false} StackLinesJoin(x: seq<Frame>, y: seq<Frame>)
    ensures StackLines(x + y) == StackLines(x) + StackLines(y)
  {
    hide Placed;
    if y == [] {
      assert x + y == x;
    } else {
      assert (x + y)[..|x + y| - 1] == x + y[..|y| - 1] && (x + y)[|x + y| - 1] == y[|y| - 1];
      StackLinesJoin(x, y[..|y| - 1]);
    }
  }

  lemma OneFrameLines(f: Frame)
    ensures StackLines([f]) == Placed(f.attrs, Base(f))
  {
    assert [f][..0] == [];
  }

  lemma {:induction false} DirectoryLinesJoin(files: Files, dir: string, b: nat, m: nat, e: nat)
    requires b <= m <= e <= |dir|
    ensures DirectoryLines(files, dir, b, e) == DirectoryLines(files, dir, b, m) + DirectoryLines(files, dir, m, e)
    decreases e
  {
    hide Placed;
    if m < e {
      DirectoryLinesJoin(files, dir, b, m, e - 1);
    }
  }

  /** No directory ends between the ends of two components. */
  lemma {:induction false} NothingBetween(files: Files, dir: string, b: nat, e: nat)
    requires b <= e <= |dir| && forall i | b < i <= e :: !IsLeading(dir, i)
    ensures DirectoryLines(files, dir, b, e) == []
    decreases e
  {
    if b < e {
      NothingBetween(files, dir, b, e - 1);
    }
  }

  lemma {:induction false} DirFramesLines(files: Files, dir: string, b: nat)
    requires b <= |dir|
    ensures StackLines(DirFrames(files, dir, b)) == DirectoryLines(files, dir, b, |dir|)
    decreases |dir| - b
  {
    hide Placed;
    if b < |dir| {
      var e := NextDir(dir, b);
      DirFramesLines(files, dir, e);
      StackLinesJoin([DirFrame(files, dir[..e])], DirFrames(files, dir, e));
      OneFrameLines(DirFrame(files, dir[..e]));
      NothingBetween(files, dir, b, e - 1);
      DirectoryLinesJoin(files, dir, b, e, |dir|);
    }
  }

  lemma OptionalLines(attrs: Option<seq<Match>>)
    ensures StackLines(OptionalFrame(attrs)) == Placed(IfThere(attrs), "")
  {
    if attrs.Some? {
      OneFrameLines(Frame(None, attrs.value));
    }
  }

  /** The stack holds the lines that hold for the directory, in that order. */
  lemma FramesForLines(files: Files, dir: string)
    ensures StackLines(FramesFor(files, dir)) == AllLines(files, dir)
  {
    hide StackLines, Placed, DirectoryLines, DirFrames;
    var builtin, root, info := Frame(None, files.builtin), DirFrame(files, ""), InfoFrame(files);
    var system, home, dirs := OptionalFrame(files.system), OptionalFrame(files.home), DirFrames(files, dir, 0);
    OneFrameLines(builtin);
    OptionalLines(files.system);
    OptionalLines(files.home);
    OneFrameLines(root);
    DirFramesLines(files, dir, 0);
    OneFrameLines(info);
    StackLinesJoin([builtin], system);
    StackLinesJoin([builtin] + system, home);
    StackLinesJoin([builtin] + system + home, [root]);
    StackLinesJoin([builtin] + system + home + [root], dirs);
    StackLinesJoin([builtin] + system + home + [root] + dirs, [info]);
  }

  /** Filling in the states of `x` after those of `y` is filling in one list, which is taken from its end. */
  lemma {:induction false} FillOneJoin(values: Values, macros: Macros, x: seq<State>, y: seq<State>)
    requires MacrosInRange(macros, |values|) && InRange(x, |values|) && InRange(y, |values|)
    ensures InRange(x + y, |values|)
    ensures FillOne(values, macros, x + y) == FillOne(FillOne(values, macros, y), macros, x)
    decreases Unknown(values), |y|
  {
    hide Unknown;
    if y == [] {
      assert x + y == x;
    } else {
      var s, rest := y[|y| - 1], y[..|y| - 1];
      assert s in y && (x + y)[..|x + y| - 1] == x + rest && (x + y)[|x + y| - 1] == s;
      if values[s.attr].Some? {
        FillOneJoin(values, macros, x, rest);
      } else {
        SetOne(values, s.attr, s.setto);
        assert macros[s.attr] in macros;
        FillOneJoin(values[s.attr := Some(s.setto)], macros, x, rest + Expansion(macros, s));
        assert (x + rest) + Expansion(macros, s) == x + (rest + Expansion(macros, s));
      }
    }
  }

  ghost predicate LinesOk(lines: seq<Line>, n: nat) {
    forall l | l in lines :: InRange(l.line.states, n)
  }

  lemma {:induction false} StatesInRange(lines: seq<Line>, path: string, matches: Matcher, n: nat)
    requires LinesOk(lines, n)
    ensures InRange(StatesOf(lines, path, matches), n)
  {
    if lines != [] {
      StatesInRange(lines[..|lines| - 1], path, matches, n);
    }
  }

  lemma {:induction false} StackLinesOk(stack: seq<Frame>, n: nat)
    requires FramesOk(stack, n)
    ensures LinesOk(StackLines(stack), n)
  {
    hide InRange;
    if stack != [] {
      StackLinesOk(stack[..|stack| - 1], n);
      PlacedOk(stack[|stack| - 1].attrs, Base(stack[|stack| - 1]), n);
    }
  }

  lemma PlacedOk(attrs: seq<Match>, base: string, n: nat)
    requires AttrsOk(attrs, n)
    ensures LinesOk(Placed(attrs, base), n)
  {
    hide InRange;
  }

  lemma {:induction false} FrameIsOneLine(values: Values, macros: Macros, f: Frame, k: nat, path: string, matches: Matcher)
    requires k <= |f.attrs| && AttrsOk(f.attrs, |values|) && MacrosInRange(macros, |values|)
    ensures InRange(StatesOf(Placed(f.attrs[..k], Base(f)), path, matches), |values|)
    ensures FillFrame(values, macros, f, k, path, matches) == FillOne(values, macros, StatesOf(Placed(f.attrs[..k], Base(f)), path, matches))
    decreases k
  {
    hide FillOne, Base;
    var lines := Placed(f.attrs[..k], Base(f));
    PlacedOk(f.attrs[..k], Base(f), |values|);
    StatesInRange(lines, path, matches, |values|);
    if k == 0 {
      FillNothing(values, macros);
    } else {
      var m, front := f.attrs[k - 1], Placed(f.attrs[..k - 1], Base(f));
      assert lines[..k - 1] == front && lines[k - 1] == Line(m, Base(f));
      StatesInRange(front, path, matches, |values|);
      if Applies(lines[k - 1], path, matches) {
        FrameIsOneLine(FillOne(values, macros, m.states), macros, f, k - 1, path, matches);
        FillOneJoin(values, macros, StatesOf(front, path, matches), m.states);
      } else {
        FrameIsOneLine(values, macros, f, k - 1, path, matches);
        assert StatesOf(front, path, matches) + [] == StatesOf(front, path, matches);
      }
    }
  }

  lemma FillNothing(values: Values, macros: Macros)
    requires MacrosInRange(macros, |values|)
    ensures FillOne(values, macros, []) == values
  {
  }

  lemma {:induction false} StackIsOneLine(values: Values, macros: Macros, stack: seq<Frame>, path: string, matches: Matcher)
    requires FramesOk(stack, |values|) && MacrosInRange(macros, |values|)
    ensures InRange(StatesOf(StackLines(stack), path, matches), |values|)
    ensures FillFrames(values, macros, stack, path, matches) == FillOne(values, macros, StatesOf(StackLines(stack), path, matches))
    decreases |stack|
  {
    hide FillOne, AttrsOk, MacrosInRange, InRange, FillFrame, Placed, StatesOf;
    StackLinesOk(stack, |values|);
    StatesInRange(StackLines(stack), path, matches, |values|);
    if stack == [] {
      NoStates(path, matches);
      FillNothing(values, macros);
    } else {
      var f, below := stack[|stack| - 1], stack[..|stack| - 1];
      FrameIsOneLine(values, macros, f, |f.attrs|, path, matches);
      assert f.attrs[..|f.attrs|] == f.attrs;
      StackIsOneLine(FillFrame(values, macros, f, |f.attrs|, path, matches), macros, below, path, matches);
      LinesJoin(StackLines(below), Placed(f.attrs, Base(f)), path, matches, 0);
      StackLinesOk(below, |values|);
      StatesInRange(StackLines(below), path, matches, |values|);
      FillOneJoin(values, macros, StatesOf(StackLines(below), path, matches), StatesOf(Placed(f.attrs, Base(f)), path, matches));
    }
  }

  lemma NoStates(path: string, matches: Matcher)
    ensures StatesOf([], path, matches) == []
  {
  }

  lemma {:induction false} MacroInPlaced(attrs: seq<Match>, base: string, a: nat)
    ensures LastMacro(Placed(attrs, base), a) == MacroIn(attrs, a)
  {
    if attrs != [] {
      assert Placed(attrs, base)[..|attrs| - 1] == Placed(attrs[..|attrs| - 1], base);
      MacroInPlaced(attrs[..|attrs| - 1], base, a);
    }
  }

  lemma {:induction false} MacroOfStack(stack: seq<Frame>, a: nat)
    ensures MacroOf(stack, a) == LastMacro(StackLines(stack), a)
  {
    hide Placed, LastMacro, MacroIn;
    if stack == [] {
      NoMacro(a);
    } else {
      MacroOfStack(stack[..|stack| - 1], a);
      MacroInPlaced(stack[|stack| - 1].attrs, Base(stack[|stack| - 1]), a);
      LinesJoin(StackLines(stack[..|stack| - 1]), Placed(stack[|stack| - 1].attrs, Base(stack[|stack| - 1])), "", (x, y, z) => false, a);
    }
  }

  lemma NoMacro(a: nat)
    ensures LastMacro([], a) == None
  {
  }

  /** The macros that hold for a directory: of each one the last definition. */
  ghost function AllMacros(files: Files, n: nat, dir: string): (macros: Macros)
    ensures |macros| == n && forall a | 0 <= a < n :: macros[a] == LastMacro(AllLines(files, dir), a)
  {
    seq(n, a requires 0 <= a < n => LastMacro(AllLines(files, dir), a))
  }

  /** A path gets what one line would give it that had the states of all lines that hold for its directory and match it. */
  lemma AttributesAreOneLine(files: Files, n: nat, path: string, dirlen: nat, matches: Matcher)
    requires FilesOk(files, n) && dirlen <= |path|
    ensures var macros, states := AllMacros(files, n, path[..dirlen]), StatesOf(AllLines(files, path[..dirlen]), path, matches);
      && MacrosInRange(macros, n) && InRange(states, n)
      && Attributes(files, n, path, dirlen, matches) == FillOne(AllUnknown(n), macros, states)
  {
    hide FramesFor, FramesOk, FilesOk, MacrosInRange, InRange, FillOne, FillFrames, StackLines, AllLines, StatesOf, LastMacro, MacroOf;
    var stack := FramesFor(files, path[..dirlen]);
    FramesForOk(files, path[..dirlen], n);
    MacrosOfOk(stack, n);
    FramesForLines(files, path[..dirlen]);
    forall a | 0 <= a < n ensures MacrosOf(stack, n)[a] == AllMacros(files, n, path[..dirlen])[a] {
      MacroOfStack(stack, a);
    }
    assert MacrosOf(stack, n) == AllMacros(files, n, path[..dirlen]);
    StackIsOneLine(AllUnknown(n), MacrosOf(stack, n), stack, path, matches);
  }

  /** What the last state for an attribute sets it to. */
  ghost function LastState(states: seq<State>, i: nat): Option<Value> {
    if states == [] then None
    else if states[|states| - 1].attr == i then Some(states[|states| - 1].setto) else LastState(states[..|states| - 1], i)
  }

  lemma {:induction false} LastStateJoin(x: seq<State>, y: seq<State>, i: nat)
    ensures LastState(x + y, i) == OrElse(LastState(y, i), LastState(x, i))
  {
    if y == [] {
      assert x + y == x;
    } else {
      assert (x + y)[..|x + y| - 1] == x + y[..|y| - 1];
      LastStateJoin(x, y[..|y| - 1], i);
    }
  }

  /** No macro has a state for the attribute. */
  ghost predicate NotInMacros(macros: Macros, i: nat) {
    forall m | m in macros && m.Some? :: LastState(m.value, i) == None
  }

  /** An attribute that no macro sets gets the last of its states, if nothing set it before. */
  lemma {:induction false} LastStateFills(values: Values, macros: Macros, todo: seq<State>, i: nat)
    requires MacrosInRange(macros, |values|) && InRange(todo, |values|) && i < |values| && NotInMacros(macros, i)
    ensures FillOne(values, macros, todo)[i] == OrElse(values[i], LastState(todo, i))
    decreases Unknown(values), |todo|
  {
    hide Unknown;
    if todo != [] {
      var s, rest := todo[|todo| - 1], todo[..|todo| - 1];
      assert s in todo;
      if values[s.attr].Some? {
        LastStateFills(values, macros, rest, i);
      } else {
        SetOne(values, s.attr, s.setto);
        assert macros[s.attr] in macros;
        LastStateFills(values[s.attr := Some(s.setto)], macros, rest + Expansion(macros, s), i);
        LastStateJoin(rest, Expansion(macros, s), i);
      }
    }
  }

  /** Does a line set the attribute of the path? */
  ghost predicate Sets(l: Line, path: string, matches: Matcher, i: nat) {
    Applies(l, path, matches) && LastState(l.line.states, i).Some?
  }

  /** Line `k` is the last one that sets the attribute; -1 stands for none. */
  ghost predicate Decides(lines: seq<Line>, path: string, matches: Matcher, i: nat, k: int) {
    && -1 <= k < |lines| && (k >= 0 ==> Sets(lines[k], path, matches, i))
    && forall j | k < j < |lines| :: !Sets(lines[j], path, matches, i)
  }

  lemma {:induction false} LastLine(lines: seq<Line>, path: string, matches: Matcher, i: nat, k: int)
    requires Decides(lines, path, matches, i, k)
    ensures LastState(StatesOf(lines, path, matches), i) == if k < 0 then None else LastState(lines[k].line.states, i)
  {
    hide LastState, Applies;
    if lines == [] {
      NoState(i);
    } else {
      var last, front := |lines| - 1, lines[..|lines| - 1];
      var states := if Applies(lines[last], path, matches) then lines[last].line.states else [];
      LastStateJoin(StatesOf(front, path, matches), states, i);
      NoState(i);
      if k < last {
        assert !Sets(lines[last], path, matches, i);
        LastLine(front, path, matches, i, k);
      }
    }
  }

  lemma NoState(i: nat)
    ensures LastState([], i) == None
  {
  }

  /** The value of an attribute that no macro sets is that of the last line that sets it: the files take precedence as `AllLines` has them. */
  lemma LastLineCounts(files: Files, n: nat, path: string, dirlen: nat, matches: Matcher, i: nat, k: int)
    requires FilesOk(files, n) && dirlen <= |path| && i < n && NotInMacros(AllMacros(files, n, path[..dirlen]), i)
    requires Decides(AllLines(files, path[..dirlen]), path, matches, i, k)
    ensures Attributes(files, n, path, dirlen, matches)[i] ==
      if k < 0 then None else LastState(AllLines(files, path[..dirlen])[k].line.states, i)
  {
    hide FilesOk, AllLines, StatesOf, LastState, NotInMacros, Sets, Attributes, AllMacros, FillOne, MacrosInRange, InRange;
    AttributesAreOneLine(files, n, path, dirlen, matches);
    LastStateFills(AllUnknown(n), AllMacros(files, n, path[..dirlen]), StatesOf(AllLines(files, path[..dirlen]), path, matches), i);
    LastLine(AllLines(files, path[..dirlen]), path, matches, i, k);
  }

  /** collect_some_attrs, whatever was looked up before. */
  method CollectSomeAttrs(check: AttrCheck, files: Files, n: nat, path: string, matches: Matcher)
    returns (value: array<Option<Value>>, ghost dirlen: nat)
    requires check.Valid(files) && FilesOk(files, n)
    modifies check`stack
    ensures check.Valid(files)
    ensures IsDirLength(path, dirlen) && value[..] == Attributes(files, n, path, dirlen, matches)
  {
    hide FramesFor, FilesOk, FramesOk, MacrosInRange, FillFrames, Unknown, MacroOf;
    var len := DirLength(path);
    dirlen := len;
    check.Prepare(files, path, len);
    value := new Option<Value>[n](_ => None);
    var macro := new Option<seq<State>>[n](_ => None);
    FramesForOk(files, path[..len], n);
    MacrosOfOk(check.stack, n);
    DetermineMacros(macro, check.stack);
    AllAreUnknown(value[..]);
    assert value[..] == AllUnknown(n);
    var rem := Fill(value, macro[..], check.stack, path, matches, n);
  }
}
