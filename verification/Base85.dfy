/**
 The base-85 codec in base85.c, with its 32-bit arithmetic, and the check that apply.c makes
 of the lines of a binary hunk.
 */
module Base85 {

  type Byte = x: int | 0 <= x < 0x100
  type Word = x: int | 0 <= x < 0x1_0000_0000

  const SPECIALS := "!#$%&()*+-;<=>?@^_`{|}~"

  /** The alphabet. */
  function En(i: nat): (c: char)
    requires i < 85
    ensures c as int < 0x100 && De(c) == i
  {
    if i < 10 then '0' + i as char
    else if i < 36 then 'A' + (i - 10) as char
    else if i < 62 then 'a' + (i - 36) as char
    else assert De(SPECIALS[i - 62]) == i; SPECIALS[i - 62]
  }

  /** The digit a character stands for, or -1. */
  function De(c: char): int {
    if '0' <= c <= '9' then c as int - '0' as int
    else if 'A' <= c <= 'Z' then c as int - 'A' as int + 10
    else if 'a' <= c <= 'z' then c as int - 'a' as int + 36
    else match c
      case '!' => 62 case '#' => 63 case '$' => 64 case '%' => 65 case '&' => 66 case '(' => 67 case ')' => 68
      case '*' => 69 case '+' => 70 case '-' => 71 case ';' => 72 case '<' => 73 case '=' => 74 case '>' => 75
      case '?' => 76 case '@' => 77 case '^' => 78 case '_' => 79 case '`' => 80 case '{' => 81 case '|' => 82
      case '}' => 83 case '~' => 84
      case _ => -1
  }

  lemma EnDe(c: char)
    requires De(c) >= 0
    ensures De(c) < 85 && En(De(c)) == c
  {
  }

  // ---------- one group ----------

  /** Five characters of the alphabet. */
  predicate InAlphabet(g: seq<char>) {
    |g| == 5 && forall i | 0 <= i < 5 :: De(g[i]) >= 0
  }

  /** The number that digits stand for, most significant first. */
  function Value(g: seq<char>): int {
    if g == [] then 0 else Value(g[..|g| - 1]) * 85 + De(g[|g| - 1])
  }

  function Power85(k: nat): (p: nat)
    ensures p >= 1
  {
    if k == 0 then 1 else 85 * Power85(k - 1)
  }

  /** One more digit in front. */
  lemma {:induction false} ValueFront(c: char, g: seq<char>)
    ensures Value([c] + g) == De(c) * Power85(|g|) + Value(g)
  {
    hide De;
    if g == [] {
      assert [c] + g == [c] && [c][..0] == [];
    } else {
      var h, last := g[..|g| - 1], g[|g| - 1];
      var all := [c] + g;
      assert all[..|all| - 1] == [c] + h && all[|all| - 1] == last;
      ValueFront(c, h);
      Distribute(De(c), Power85(|h|), Value(h), De(last));
    }
  }

  lemma Distribute(c: int, p: int, v: int, d: int)
    ensures (c * p + v) * 85 + d == c * (85 * p) + (v * 85 + d)
  {
  }

  /** A group that can be decoded: the number fits into 32 bits. */
  predicate GroupOk(g: seq<char>) {
    InAlphabet(g) && 0 <= Value(g) < 0x1_0000_0000
  }

  /** Byte `k` of a word, most significant first. */
  function ByteOf(w: Word, k: nat): Byte
    requires k < 4
  {
    match k
    case 0 => w / 0x100_0000
    case 1 => w / 0x1_0000 % 0x100
    case 2 => w / 0x100 % 0x100
    case 3 => w % 0x100
  }

  /** The word that bytes `i` and the following make, with zeros for those that are missing. */
  function WordAt(data: seq<Byte>, i: nat): Word {
    ByteAt(data, i) * 0x100_0000 + ByteAt(data, i + 1) * 0x1_0000 + ByteAt(data, i + 2) * 0x100 + ByteAt(data, i + 3)
  }

  function ByteAt(data: seq<Byte>, i: nat): (b: int)
    ensures 0 <= b < 0x100
  {
    if i < |data| then data[i] else 0
  }

  /** The groups that `len` bytes take. */
  function GroupsFor(len: nat): nat {
    (len + 3) / 4
  }

  function Group(text: seq<char>, g: nat): seq<char>
    requires 5 * g + 5 <= |text|
  {
    text[5 * g..5 * g + 5]
  }

  lemma BytesOfWord(b0: int, b1: int, b2: int, b3: int)
    requires 0 <= b0 < 0x100 && 0 <= b1 < 0x100 && 0 <= b2 < 0x100 && 0 <= b3 < 0x100
    ensures var w := b0 * 0x100_0000 + b1 * 0x1_0000 + b2 * 0x100 + b3;
      && 0 <= w < 0x1_0000_0000
      && ByteOf(w, 0) == b0 && ByteOf(w, 1) == b1 && ByteOf(w, 2) == b2 && ByteOf(w, 3) == b3
  {
    var w := b0 * 0x100_0000 + b1 * 0x1_0000 + b2 * 0x100 + b3;
    assert w / 0x100_0000 == b0;
    assert w / 0x1_0000 == b0 * 0x100 + b1;
    assert w / 0x100 == (b0 * 0x100 + b1) * 0x100 + b2;
  }

  /** Every word is made of its bytes. */
  lemma WordOfBytes(w: Word)
    ensures w == ByteOf(w, 0) * 0x100_0000 + ByteOf(w, 1) * 0x1_0000 + ByteOf(w, 2) * 0x100 + ByteOf(w, 3)
  {
    var x := w / 0x100;
    var y := x / 0x100;
    assert w == x * 0x100 + w % 0x100 && x == y * 0x100 + x % 0x100 && y == y / 0x100 * 0x100 + y % 0x100;
    assert y == w / 0x1_0000 && y / 0x100 == w / 0x100_0000;
  }

  /** Rotating a word left by a byte. */
  function Rotated(w: Word): Word {
    w % 0x100_0000 * 0x100 + w / 0x100_0000
  }

  lemma RotateTop(a: int, rest: int)
    requires 0 <= a < 0x100 && 0 <= rest < 0x100_0000
    ensures Rotated(a * 0x100_0000 + rest) == rest * 0x100 + a && (rest * 0x100 + a) % 0x100 == a
  {
    var w := a * 0x100_0000 + rest;
    assert w / 0x100_0000 == a && w % 0x100_0000 == rest;
  }

  /** Rotating it four times shows its bytes from the top. */
  lemma RotatedBytes(w: Word)
    ensures var r := Rotated(w); var s := Rotated(r); var t := Rotated(s); var u := Rotated(t);
      r % 0x100 == ByteOf(w, 0) && s % 0x100 == ByteOf(w, 1) && t % 0x100 == ByteOf(w, 2) && u % 0x100 == ByteOf(w, 3)
  {
    hide Rotated, ByteOf;
    var b0: int, b1: int, b2: int, b3: int := ByteOf(w, 0), ByteOf(w, 1), ByteOf(w, 2), ByteOf(w, 3);
    WordOfBytes(w);
    RotateTop(b0, b1 * 0x1_0000 + b2 * 0x100 + b3);
    RotateTop(b1, b2 * 0x1_0000 + b3 * 0x100 + b0);
    RotateTop(b2, b3 * 0x1_0000 + b0 * 0x100 + b1);
    RotateTop(b3, b0 * 0x1_0000 + b1 * 0x100 + b2);
  }

  // ---------- encoding ----------

  /** encode_85, without the terminating NUL. */
  method Encode(data: seq<Byte>) returns (buf: seq<char>)
    ensures |buf| == 5 * GroupsFor(|data|)
    ensures forall g: nat | g < GroupsFor(|data|) :: Encodes(buf, g, data)
  {
    hide Value, WordAt, InAlphabet;
    buf := [];
    var next, bytes := 0, |data|;
    while bytes > 0
      invariant next + bytes == |data| && 0 <= bytes && (next % 4 == 0 || bytes == 0)
      invariant |buf| == 5 * GroupsFor(next)
      invariant forall g: nat | g < GroupsFor(next) :: Encodes(buf, g, data)
    {
      var acc := GatherWord(data, next);
      var digits := Digits(acc);
      var taken := if bytes < 4 then bytes else 4;
      OneMoreGroup(next, taken);
      forall g: nat | g < GroupsFor(next) + 1 ensures Encodes(buf + digits, g, data) {
        if g < GroupsFor(next) {
          assert Encodes(buf, g, data);
          assert Group(buf + digits, g) == Group(buf, g);
        } else {
          assert Group(buf + digits, g) == digits;
        }
      }
      buf := buf + digits;
      next, bytes := next + taken, bytes - taken;
    }
  }

  /** Group `g` of the text stands for the bytes that belong to it. */
  predicate Encodes(buf: seq<char>, g: nat, data: seq<Byte>) {
    5 * g + 5 <= |buf| && GroupOk(Group(buf, g)) && Value(Group(buf, g)) == WordAt(data, 4 * g)
  }

  lemma OneMoreGroup(next: nat, taken: nat)
    requires next % 4 == 0 && 1 <= taken <= 4
    ensures GroupsFor(next + taken) == GroupsFor(next) + 1 && 4 * GroupsFor(next) == next
  {
  }

  /** The inner loop that shifts up to four bytes into place. */
  method GatherWord(data: seq<Byte>, next: nat) returns (acc: Word)
    requires next < |data|
    ensures acc == WordAt(data, next)
  {
    acc := 0;
    var cnt, k := 24, 0;
    while cnt >= 0
      invariant 0 <= k <= 4 && cnt == 24 - 8 * k && (k < 4 ==> next + k < |data|)
      invariant acc == Gathered(data, next, k)
    {
      // the shifted byte does not overlap what is there, so that the bitwise or adds it
      acc := acc + Shifted(data[next + k], cnt);
      k := k + 1;
      if next + k == |data| {
        break;
      }
      cnt := cnt - 8;
    }
  }

  function Shifted(b: Byte, cnt: nat): Word
    requires cnt in {0, 8, 16, 24}
  {
    if cnt == 24 then b * 0x100_0000 else if cnt == 16 then b * 0x1_0000 else if cnt == 8 then b * 0x100 else b
  }

  /** The first `k` bytes in place. */
  function Gathered(data: seq<Byte>, i: nat, k: nat): (w: int)
    ensures 0 <= w < 0x1_0000_0000
  {
    (if k > 0 then ByteAt(data, i) * 0x100_0000 else 0) + (if k > 1 then ByteAt(data, i + 1) * 0x1_0000 else 0)
      + (if k > 2 then ByteAt(data, i + 2) * 0x100 else 0) + (if k > 3 then ByteAt(data, i + 3) else 0)
  }

  /** The inner loop that writes five digits from the last to the first. */
  method Digits(w: Word) returns (buf: seq<char>)
    ensures |buf| == 5 && GroupOk(buf) && Value(buf) == w
  {
    hide De, Value;
    buf := [];
    var acc: int, cnt := w, 4;
    assert Value([]) == 0 by {
      EmptyValue();
    }
    while cnt >= 0
      invariant -1 <= cnt <= 4 && |buf| == 4 - cnt && acc >= 0
      invariant w == acc * Power85(|buf|) + Value(buf) && 0 <= Value(buf)
      invariant forall i | 0 <= i < |buf| :: De(buf[i]) >= 0
    {
      var val: nat := acc % 85;
      ValueFront(En(val), buf);
      NextDigit(acc, Power85(|buf|));
      acc := acc / 85;
      buf := [En(val)] + buf;
      cnt := cnt - 1;
    }
    assert Power85(5) == 4437053125 by {
      FifthPower();
    }
    NothingLeft(acc, Value(buf), w);
  }

  lemma EmptyValue()
    ensures Value([]) == 0
  {
  }

  lemma NextDigit(acc: nat, p: nat)
    ensures acc * p == acc / 85 * (85 * p) + acc % 85 * p && acc % 85 * p >= 0
  {
    assert acc == acc / 85 * 85 + acc % 85;
    assert acc * p == (acc / 85 * 85 + acc % 85) * p;
  }

  lemma FifthPower()
    ensures Power85(5) == 4437053125
  {
    assert Power85(1) == 85 && Power85(2) == 7225 && Power85(3) == 614125 && Power85(4) == 52200625;
  }

  lemma NothingLeft(acc: nat, v: int, w: Word)
    requires w == acc * 4437053125 + v && v >= 0
    ensures acc == 0
  {
  }

  // ---------- decoding ----------

  class Codec {
    const de85: array<int>

    /** The table is empty, or it holds every digit plus one. */
    ghost predicate Valid()
      reads this, de85
    {
      de85.Length == 0x100
      && ((forall k | 0 <= k < 0x100 :: de85[k] == 0) || Filled(0x100))
    }

    ghost predicate Filled(n: nat)
      requires de85.Length == 0x100
      reads this, de85
    {
      forall k | 0 <= k < 0x100 :: de85[k] == if 0 <= De(k as char) < n then De(k as char) + 1 else 0
    }

    constructor ()
      ensures Valid() && fresh(de85)
    {
      de85 := new int[0x100](_ => 0);
    }

    /** prep_base85 */
    method Prepare()
      requires Valid()
      modifies de85
      ensures Valid() && Filled(85)
    {
      hide De;
      AllDigits();
      if de85['Z' as int] != 0 {
        return;
      }
      for i := 0 to 85
        invariant Filled(i)
      {
        var ch := En(i);
        OnlyDigit(i);
        de85[ch as int] := i + 1;
      }
    }

    /** decode_85: succeeds exactly when every group can be decoded. */
    method Decode(buffer: seq<char>, len0: nat) returns (ok: bool, dst: seq<Byte>)
      requires Valid() && |buffer| >= 5 * GroupsFor(len0) && forall i | 0 <= i < |buffer| :: buffer[i] as int < 0x100
      modifies de85
      ensures Valid()
      ensures ok <==> forall g: nat | g < GroupsFor(len0) :: GroupOk(Group(buffer, g))
      ensures ok ==> |dst| == len0 && forall i: nat | i < len0 :: dst[i] == Decoded(buffer, i)
    {
      hide De, Value, InAlphabet, ByteOf;
      Prepare();
      dst := [];
      var len, g: nat := len0, 0;
      while len > 0
        invariant 0 <= len <= len0 && len0 - len == |dst| && (|dst| == 4 * g || (len == 0 && |dst| <= 4 * g < |dst| + 4))
        invariant Valid() && Filled(85)
        invariant forall j: nat | j < g :: 5 * j + 5 <= |buffer| && GroupOk(Group(buffer, j))
        invariant g <= GroupsFor(len0)
        invariant forall i: nat | i < |dst| :: i / 4 < g && dst[i] == Decoded(buffer, i)
        decreases len
      {
        assert 5 * g + 5 <= |buffer|;
        var good, acc := DecodeGroup(Group(buffer, g));
        if !good {
          return false, dst;
        }
        var cnt := if len < 4 then len else 4;
        len := len - cnt;
        var bytes := Unpack(acc, cnt);
        assert forall i: nat | |dst| <= i < |dst| + cnt :: i / 4 == g && i % 4 == i - |dst|;
        dst := dst + bytes;
        g := g + 1;
      }
      ok := true;
    }

    /** The digits of one group, with the test for overflow. */
    method DecodeGroup(g: seq<char>) returns (good: bool, acc: Word)
      requires de85.Length == 0x100 && Filled(85) && |g| == 5 && forall i | 0 <= i < 5 :: g[i] as int < 0x100
      ensures good <==> GroupOk(g)
      ensures good ==> acc == Value(g)
    {
      hide De, Value;
      AllDigits();
      EmptyValue();
      acc := 0;
      var k := 0;
      var de;
      while k < 4
        invariant 0 <= k <= 4 && acc == Value(g[..k]) && acc < Power85(k) && forall i | 0 <= i < k :: De(g[i]) >= 0
      {
        de := de85[g[k] as int] - 1;
        if de < 0 {
          assert De(g[k]) < 0;
          return false, 0;
        }
        ValueStep(g, k);
        SmallPowers(k);
        acc := acc * 85 + de;
        k := k + 1;
      }
      de := de85[g[4] as int] - 1;
      if de < 0 {
        assert De(g[4]) < 0;
        return false, 0;
      }
      ValueStep(g, 4);
      assert g[..5] == g;
      if 0xffff_ffff / 85 < acc || 0xffff_ffff - de < acc * 85 {
        return false, 0;
      }
      acc := acc * 85 + de;
      good := true;
    }
  }

  lemma ValueStep(g: seq<char>, k: nat)
    requires k < |g|
    ensures Value(g[..k + 1]) == Value(g[..k]) * 85 + De(g[k])
  {
    hide De;
    assert g[..k + 1][..k] == g[..k];
  }

  lemma SmallPowers(k: nat)
    requires k < 4
    ensures 85 * Power85(k) == Power85(k + 1) <= 52200625
  {
    assert Power85(1) == 85 && Power85(2) == 7225 && Power85(3) == 614125 && Power85(4) == 52200625;
  }

  /** Byte `i` of what the text decodes to. */
  function Decoded(buffer: seq<char>, i: nat): Byte
    requires 5 * (i / 4) + 5 <= |buffer| && GroupOk(Group(buffer, i / 4))
  {
    ByteOf(Value(Group(buffer, i / 4)), i % 4)
  }

  /** The inner loop that rotates the bytes out. */
  method Unpack(w: Word, count: nat) returns (bytes: seq<Byte>)
    requires 1 <= count <= 4
    ensures |bytes| == count && forall k | 0 <= k < count :: bytes[k] == ByteOf(w, k)
  {
    hide Rotated, ByteOf;
    RotatedBytes(w);
    bytes := [];
    var acc, cnt := w, count;
    while cnt > 0
      invariant 0 <= cnt <= count && |bytes| == count - cnt
      invariant acc == Turned(w, |bytes|) && forall k | 0 <= k < |bytes| :: bytes[k] == ByteOf(w, k)
    {
      acc := Rotated(acc);
      bytes := bytes + [acc % 0x100];
      cnt := cnt - 1;
    }
  }

  function Turned(w: Word, k: nat): Word {
    match k
    case 0 => w
    case 1 => Rotated(w)
    case 2 => Rotated(Rotated(w))
    case 3 => Rotated(Rotated(Rotated(w)))
    case _ => Rotated(Rotated(Rotated(Rotated(w))))
  }

  lemma AllDigits()
    ensures (forall c :: De(c) < 85) && De('Z') == 35
  {
  }

  lemma OnlyDigit(i: nat)
    requires i < 85
    ensures forall c | De(c) == i :: c == En(i)
  {
    forall c | De(c) == i ensures c == En(i) {
      EnDe(c);
    }
  }

  // ---------- round trips ----------

  /** Decoding what encoding wrote gives the bytes back. */
  lemma DecodedIsData(data: seq<Byte>, buf: seq<char>, i: nat)
    requires i < |data| && forall g: nat | g < GroupsFor(|data|) :: Encodes(buf, g, data)
    ensures Encodes(buf, i / 4, data) && Decoded(buf, i) == data[i]
  {
    hide Value, InAlphabet;
    var g := i / 4;
    assert Encodes(buf, g, data);
    BytesOfWord(ByteAt(data, 4 * g), ByteAt(data, 4 * g + 1), ByteAt(data, 4 * g + 2), ByteAt(data, 4 * g + 3));
  }

  method RoundTrip(codec: Codec, data: seq<Byte>) returns (ok: bool, back: seq<Byte>)
    requires codec.Valid()
    modifies codec.de85
    ensures ok && back == data
  {
    hide Decoded, Group, GroupOk;
    var buf := Encode(data);
    AllBytes(data, buf);
    ok, back := codec.Decode(buf, |data|);
    forall i: nat | i < |data| ensures ok && i < |back| && back[i] == data[i] {
      DecodedIsData(data, buf, i);
    }
  }

  /** What encoding writes are bytes, in groups that can be decoded. */
  lemma AllBytes(data: seq<Byte>, buf: seq<char>)
    requires |buf| == 5 * GroupsFor(|data|) && forall g: nat | g < GroupsFor(|data|) :: Encodes(buf, g, data)
    ensures forall i | 0 <= i < |buf| :: buf[i] as int < 0x100
    ensures forall g: nat | g < GroupsFor(|data|) :: GroupOk(Group(buf, g))
  {
    hide Value, De;
    OnlyBytes();
    forall i: nat | i < |buf| ensures buf[i] as int < 0x100 {
      assert Encodes(buf, i / 5, data);
      assert Group(buf, i / 5)[i % 5] == buf[i];
    }
    forall g: nat | g < GroupsFor(|data|) ensures GroupOk(Group(buf, g)) {
      assert Encodes(buf, g, data);
    }
  }

  lemma OnlyBytes()
    ensures forall c | De(c) >= 0 :: c as int < 0x100
  {
  }

  /** Two groups never stand for the same number. */
  lemma {:induction false} ValueIsUnique(g: seq<char>, h: seq<char>)
    requires |g| == |h| && Value(g) == Value(h) && forall i | 0 <= i < |g| :: De(g[i]) >= 0 && De(h[i]) >= 0
    ensures g == h
  {
    hide De;
    if g != [] {
      var last := |g| - 1;
      EnDe(g[last]);
      EnDe(h[last]);
      SameDigits(Value(g[..last]), De(g[last]), Value(h[..last]), De(h[last]));
      ValueIsUnique(g[..last], h[..last]);
      assert g == g[..last] + [g[last]] && h == h[..last] + [h[last]];
    }
  }

  lemma SameDigits(a: int, d: int, b: int, e: int)
    requires a * 85 + d == b * 85 + e && 0 <= d < 85 && 0 <= e < 85
    ensures a == b && d == e
  {
  }

  // ---------- the lines of a binary hunk ----------

  /** The length that the first character of a line of `llen` bytes announces, if the line passes parse_binary_hunk's tests. */
  method LineLength(first: char, llen: nat) returns (byteLength: int)
    ensures byteLength == if Announced(first) > 0 && llen == 1 + 5 * GroupsFor(Announced(first)) + 1 then Announced(first) else -1
  {
    if llen < 7 || (llen - 2) % 5 != 0 {
      return -1;
    }
    var maxByteLength := (llen - 2) / 5 * 4;
    if 'A' <= first <= 'Z' {
      byteLength := first as int - 'A' as int + 1;
    } else if 'a' <= first <= 'z' {
      byteLength := first as int - 'a' as int + 27;
    } else {
      return -1;
    }
    if maxByteLength < byteLength || byteLength <= maxByteLength - 4 {
      return -1;
    }
  }

  /** The letters count from 1 to 52. */
  function Announced(c: char): nat {
    if 'A' <= c <= 'Z' then c as int - 'A' as int + 1 else if 'a' <= c <= 'z' then c as int - 'a' as int + 27 else 0
  }
}
