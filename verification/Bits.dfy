/**
 The words in which combine-diff.c keeps one bit a parent, and the two ways it shifts a one into them.
 */
module Bits {

  /** An unsigned long. */
  type Word = bv64

  predicate Meets(x: Word, y: Word) {
    x & y != 0
  }

  function Or(x: Word, y: Word): Word {
    x | y
  }

  lemma OrAnd(x: Word, y: Word, b: Word)
    ensures (x | y) & b == (x & b) | (y & b)
  {
  }

  lemma OrMeets(x: Word, y: Word, b: Word)
    requires Meets(x, b) || Meets(y, b)
    ensures Meets(Or(x, y), b)
  {
    OrAnd(x, y, b);
    if (x | y) & b == 0 {
      OrIsZero(x & b, y & b);
    }
  }

  lemma OrIsZero(x: Word, y: Word)
    requires x | y == 0
    ensures x == 0 && y == 0
  {
  }

  lemma OrMisses(x: Word, y: Word, b: Word)
    requires !Meets(x, b) && !Meets(y, b)
    ensures !Meets(Or(x, y), b)
  {
    OrAnd(x, y, b);
  }

  /** 1UL << n */
  function Bit(n: nat): Word
    requires n < 64
  {
    1 << n
  }

  predicate Has(w: Word, n: nat) {
    n < 64 && Meets(w, Bit(n))
  }

  lemma HasNothing(n: nat)
    ensures !Has(0, n)
  {
  }

  lemma BitMeetsItself(n: nat)
    requires n < 64
    ensures Meets(Bit(n), Bit(n))
  {
  }

  lemma BitsApart(n: nat, m: nat)
    requires n < 64 && m < 64 && n != m
    ensures !Meets(Bit(n), Bit(m))
  {
  }

  lemma HasBit(n: nat, m: nat)
    requires n < 64 && m < 64
    ensures Has(Bit(n), m) <==> n == m
  {
    hide Bit, Meets;
    if n == m {
      BitMeetsItself(n);
    } else {
      BitsApart(n, m);
    }
  }

  lemma HasOr(x: Word, y: Word, n: nat)
    ensures Has(Or(x, y), n) <==> Has(x, n) || Has(y, n)
  {
    hide Bit, Meets, Or;
    if n < 64 {
      var b := Bit(n);
      if Meets(x, b) || Meets(y, b) {
        OrMeets(x, y, b);
      } else {
        OrMisses(x, y, b);
      }
    }
  }

  // ---------- the shift of an int ----------

  function IntBit(n: nat): bv32
    requires n < 32
  {
    1 << n
  }

  /** An int becomes an unsigned long: its sign is extended. */
  function Widen(x: bv32): Word {
    if x & 0x8000_0000 != 0 then 0xffff_ffff_0000_0000 | (x as Word) else x as Word
  }

  /**
   1 << n, as an operand of an unsigned long. For 31 it is the sign bit, as compilers have it; for an `n` beyond
   the width of an int, anything.
   */
  function OneShifted(n: nat, beyond: nat -> Word): Word {
    if n < 32 then Widen(IntBit(n)) else beyond(n)
  }

  lemma ShiftedIs(n: nat)
    requires n < 32
    ensures Widen(IntBit(n)) == if n == 31 then 0xffff_ffff_8000_0000 else Bit(n)
  {
  }

  lemma TopHas(m: nat)
    requires m < 64
    ensures Has(0xffff_ffff_8000_0000, m) <==> m >= 31
  {
  }

  /** Shifting an int sets the same bit as shifting an unsigned long, but for 31, where it sets all further bits too. */
  lemma OneShiftedHas(n: nat, beyond: nat -> Word, m: nat)
    requires n < 32 && m < 64
    ensures Has(OneShifted(n, beyond), m) <==> m == n || (n == 31 && m > 31)
  {
    hide Has, Widen, IntBit, Bit;
    ShiftedIs(n);
    if n < 31 {
      HasBit(n, m);
    } else {
      TopHas(m);
    }
  }
}
