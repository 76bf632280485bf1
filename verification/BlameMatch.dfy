/**
 The fuzzy line matcher of blame.c.  "A" is the parent side of a diff chunk and "B" the
 target side.  Lines of A keep their line numbers in the parent file; lines of B are
 numbered from the start of the chunk.
 */
module BlameMatch {
  import opened Fingerprints
  import opened Wrappers

  function Abs(x: int): nat {
    if x < 0 then -x else x
  }

  // ---------- arithmetic of an int ----------

  /** Division of ints, which cuts off towards zero. */
  function Quotient(n: int, d: nat): int
    requires d > 0
  {
    if n >= 0 then n / d else -(-n / d)
  }

  // ---------- scores and certainties ----------

  /** Two lines at distance `d` from the closest pair: an int product, which closer pairs win among alike ones. */
  function ScoreOf(x: Fingerprint, y: Fingerprint, d: nat): int {
    Wrapped(Similarity(x, y) * (1000 - d))
  }

  /** How certain a best score is beside the second best one; an int, too. */
  function CertaintyOf(best: int, second: int): int {
    Wrapped(best * 2 - second)
  }

  /** The most byte pairs of a line with which no certainty can leave the range of an int. */
  const MAX_PAIRS: nat := 1_073_741

  ghost predicate Light(target: seq<Fingerprint>) {
    forall b | 0 <= b < |target| :: |target[b]| <= MAX_PAIRS
  }

  /** That is, with up to so many bytes and one. */
  lemma ShortIsLight(lines: seq<string>)
    requires forall b | 0 <= b < |lines| :: |lines[b]| < MAX_PAIRS
    ensures Light(seq(|lines|, b requires 0 <= b < |lines| => Pairs(lines[b])))
  {
    forall b | 0 <= b < |lines| ensures |Pairs(lines[b])| <= MAX_PAIRS {
      PairsCount(lines[b], |lines[b]| + 1);
    }
  }

  lemma LightScore(x: Fingerprint, y: Fingerprint, d: nat)
    requires |x| <= MAX_PAIRS && d <= 1000
    ensures ScoreOf(x, y, d) == Similarity(x, y) * (1000 - d) && 0 <= ScoreOf(x, y, d) <= 1000 * MAX_PAIRS
  {
    SimilarityBound(x, y);
    hide Similarity;
    ProductBound(Similarity(x, y), 1000 - d, MAX_PAIRS, 1000);
  }

  lemma ProductBound(x: nat, y: nat, u: nat, v: nat)
    requires x <= u && y <= v
    ensures 0 <= x * y <= u * v
  {
    MulMono(x, y, v);
    MulMono(v, x, u);
  }

  /** Only lines with something in common score. */
  lemma ScoreMeansAlike(x: Fingerprint, y: Fingerprint, d: nat)
    ensures ScoreOf(x, y, d) > 0 ==> Similarity(x, y) > 0
  {
    hide Similarity;
  }

  /** A light line scores with every line that it has something in common with. */
  lemma LightScoresAlike(x: Fingerprint, y: Fingerprint, d: nat)
    requires |x| <= MAX_PAIRS && d < 1000
    ensures ScoreOf(x, y, d) > 0 <==> Similarity(x, y) > 0
  {
    LightScore(x, y, d);
    hide Similarity;
    ScorePositive(Similarity(x, y), 1000 - d);
  }

  lemma ScorePositive(x: nat, y: nat)
    requires y > 0
    ensures x * y > 0 <==> x > 0
  {
  }

  /** A certainty between scores of a light line is positive. */
  lemma LightCertainty(best: int, second: int)
    requires 0 <= second <= best <= 1000 * MAX_PAIRS && best > 0
    ensures CertaintyOf(best, second) == best * 2 - second > 0
  {
  }

  /** And other certainties are never mistaken for one that is yet to be calculated. */
  lemma CertaintyIsCalculated(best: int, second: int)
    requires 0 <= second <= best <= INT_MAX && best > 0
    ensures CertaintyOf(best, second) != 0 && CertaintyOf(best, second) != -1
  {
  }

  // ---------- the linear map from B to A ----------

  /** Files of more than 1023 MiB are not compared. */
  const MAX_LINES: nat := 1024 * 1024 * 1023

  /** A chunk: `lengthA` parent lines from `startA`, `lengthB` target lines, both sides nonempty. */
  datatype Chunk = Chunk(startA: nat, lengthA: nat, lengthB: nat) {
    /** Lines of two files that can be compared, with a table of similarities whose size is an int. */
    ghost predicate Valid() {
      && 0 < lengthA && startA + lengthA <= MAX_LINES && 0 < lengthB <= MAX_LINES
      && (2 * SearchDistanceA() + 1) * lengthB <= INT_MAX
    }

    function Product(b: nat): nat {
      (b * 2 + 1) * lengthA
    }

    /** map_line_number: of all its steps, only the product can leave the range of an int. */
    function Closest(b: nat): int
      requires lengthB > 0
    {
      Quotient(Wrapped(Product(b)), lengthB * 2) + startA
    }

    /** The line of A at the same relative position as line `b` of B. */
    function Scaled(b: nat): int
      requires lengthB > 0
    {
      Product(b) / (lengthB * 2) + startA
    }

    /** No product leaves the range of an int. */
    ghost predicate Fits() {
      (2 * lengthB - 1) * lengthA <= INT_MAX
    }

    function SearchDistanceA(): nat {
      if 10 >= lengthA then (if lengthA > 0 then lengthA - 1 else 0) else 10
    }

    function SearchDistanceB(): nat
      requires 0 < lengthA && 0 < lengthB
    {
      ((2 * SearchDistanceA() + 1) * lengthB - 1) / lengthA
    }

    ghost predicate InA(a: int) {
      startA <= a < startA + lengthA
    }

    /** Line `b` of B is compared with line `a` of A. */
    ghost predicate Window(b: nat, a: int)
      requires Valid()
    {
      Abs(a - Closest(b)) <= SearchDistanceA()
    }

    lemma ProductFits(b: nat)
      requires Valid() && Fits() && b < lengthB
      ensures Product(b) <= INT_MAX && Closest(b) == Scaled(b)
    {
      MulMono(lengthA, b * 2 + 1, 2 * lengthB - 1);
    }

    lemma ScaledInChunk(b: nat)
      requires 0 < lengthA && b < lengthB
      ensures InA(Scaled(b))
    {
      ScaledLess(b, lengthA, lengthB);
    }

    /** While the products fit, the map leads to the line in which the middle of the target line's share of the chunk lies. */
    lemma ClosestIsMiddle(b: nat)
      requires Valid() && Fits() && b < lengthB
      ensures var a := Closest(b) - startA; 2 * lengthB * a <= (2 * b + 1) * lengthA < 2 * lengthB * (a + 1)
      ensures lengthA == lengthB ==> Closest(b) == startA + b
    {
      ProductFits(b);
      hide Closest, Valid, Fits;
      DivBetween(Product(b), lengthB * 2);
      if lengthA == lengthB {
        HalfOver(lengthB, b);
      }
    }

    /** A target line is compared with the ten parent lines at either side of that one, and so with all if there are no more than eleven. */
    lemma WindowReach(b: nat, a: int)
      requires Valid() && Fits() && b < lengthB && InA(a)
      ensures lengthA <= 11 ==> Window(b, a)
      ensures lengthA > 11 ==> (Window(b, a) <==> Closest(b) - 10 <= a <= Closest(b) + 10)
    {
      ProductFits(b);
      ScaledInChunk(b);
    }

    /** The first line at which the product is too large. */
    lemma {:induction false} FirstTooLarge(b: nat) returns (c: nat)
      requires Valid() && Product(b) > INT_MAX
      ensures 0 < c <= b && INT_MAX < Product(c) <= INT_MAX + 2 * lengthA
    {
      Spread(b - 1, 1, lengthA);
      if Product(b - 1) > INT_MAX {
        c := FirstTooLarge(b - 1);
      } else {
        c := b;
      }
    }

    /** There the map comes out in front of the chunk. */
    lemma TooLargeIsOutside(c: nat)
      requires Valid() && 0 < c < lengthB && INT_MAX < Product(c) <= INT_MAX + 2 * lengthA
      ensures !InA(Closest(c))
    {
      WrappedFar(lengthA, lengthB, c);
      BehindZero(Wrapped(Product(c)), lengthB * 2);
    }

    /** The map stays inside the chunk exactly when the products fit an int. */
    lemma MapStaysInChunk()
      requires Valid()
      ensures (forall b | 0 <= b < lengthB :: InA(Closest(b))) <==> Fits()
    {
      if Fits() {
        forall b | 0 <= b < lengthB ensures InA(Closest(b)) {
          ProductFits(b);
          ScaledInChunk(b);
        }
      } else {
        var c := FirstTooLarge(lengthB - 1);
        TooLargeIsOutside(c);
      }
    }

    /**
     Then target lines more than SearchDistanceB apart are never compared with the same parent
     line, and the windows lie in order: this is why invalidating only that far is enough.
     */
    lemma WindowsApart(b1: nat, b2: nat)
      requires Valid() && Fits() && b1 + SearchDistanceB() < b2 < lengthB
      ensures Closest(b1) + 2 * SearchDistanceA() < Closest(b2)
    {
      var w, d, gap := 2 * SearchDistanceA() + 1, lengthB * 2, b2 - b1;
      DivBound(w * lengthB - 1, lengthA, gap);
      Spread(b1, gap, lengthA);
      assert 2 * (w * lengthB) == d * w;
      DivShift(Product(b1), Product(b2), w, d);
      ProductFits(b1);
      ProductFits(b2);
    }
  }

  lemma ScaledLess(b: nat, lengthA: nat, lengthB: nat)
    requires 0 < lengthA && b < lengthB
    ensures (b * 2 + 1) * lengthA / (lengthB * 2) < lengthA
  {
    var n, d := b * 2 + 1, lengthB * 2;
    MulLess(n, d, lengthA);
    DivLess(n * lengthA, d, lengthA);
  }

  lemma BehindZero(n: int, d: nat)
    requires 0 < d <= -n
    ensures Quotient(n, d) < 0
  {
    DivShift(0, -n, 1, d);
  }

  lemma WrappedFar(lengthA: nat, lengthB: nat, c: nat)
    requires lengthA <= MAX_LINES && lengthB <= MAX_LINES && 0 < c
    requires lengthA > 10 ==> 21 * lengthB <= INT_MAX
    requires INT_MAX < (c * 2 + 1) * lengthA <= INT_MAX + 2 * lengthA
    ensures Wrapped((c * 2 + 1) * lengthA) <= -(lengthB * 2)
  {
    if lengthA + lengthB > 0x4000_0000 && c > 1 {
      MulMono(lengthA, 5, c * 2 + 1);
    }
  }

  lemma MulLess(x: nat, y: nat, z: nat)
    requires x < y && z > 0
    ensures x * z < y * z
  {
  }

  lemma Spread(b: nat, gap: nat, length: nat)
    ensures ((b + gap) * 2 + 1) * length == (b * 2 + 1) * length + 2 * (length * gap)
  {
    assert (b + gap) * 2 + 1 == (b * 2 + 1) + 2 * gap;
    assert ((b * 2 + 1) + 2 * gap) * length == (b * 2 + 1) * length + (2 * gap) * length;
  }

  lemma MulMono(d: nat, x: nat, y: nat)
    requires x <= y
    ensures d * x <= d * y
  {
  }

  lemma MulCancel(d: nat, x: nat, y: nat)
    requires d * x < d * y
    ensures x < y
  {
    if x >= y {
      MulMono(d, y, x);
    }
  }

  lemma DivLess(n: nat, d: nat, q: nat)
    requires d > 0 && n < d * q
    ensures n / d < q
  {
    assert n == d * (n / d) + n % d;
    MulCancel(d, n / d, q);
  }

  lemma DivBound(n: nat, d: nat, gap: nat)
    requires d > 0 && n / d < gap
    ensures n < d * gap
  {
    assert n == d * (n / d) + n % d;
    MulMono(d, n / d + 1, gap);
    assert d * (n / d + 1) == d * (n / d) + d;
  }

  lemma DivBetween(n: nat, d: nat)
    requires d > 0
    ensures d * (n / d) <= n < d * (n / d + 1)
  {
    assert n == d * (n / d) + n % d;
    assert d * (n / d + 1) == d * (n / d) + d;
  }

  lemma HalfOver(x: nat, b: nat)
    requires x > 0
    ensures (b * 2 + 1) * x / (x * 2) == b
  {
    assert (b * 2 + 1) * x == (x * 2) * b + x;
    DivShift(x, (b * 2 + 1) * x, b, x * 2);
    assert (x * 2) * (b + 1) == (x * 2) * b + x * 2;
    DivLess((b * 2 + 1) * x, x * 2, b + 1);
  }

  lemma DivShift(n1: nat, n2: nat, w: nat, d: nat)
    requires d > 0 && n2 >= n1 + d * w
    ensures n2 / d >= n1 / d + w
  {
    assert n1 == d * (n1 / d) + n1 % d;
    assert n2 == d * (n2 / d) + n2 % d;
    assert d * (n1 / d + w) == d * (n1 / d) + d * w;
    assert d * (n2 / d + 1) == d * (n2 / d) + d;
    MulCancel(d, n1 / d + w, n2 / d + 1);
  }

  const CERTAIN_NOTHING_MATCHES := -2
  const CERTAINTY_NOT_CALCULATED := -1

  // ---------- what is left ----------

  /** What the lines of B from `lo` on take out of line `x` of A with these answers. */
  ghost function Taken(target: seq<Fingerprint>, lo: nat, answers: seq<int>, x: int): Fingerprint
    requires lo + |answers| <= |target|
    decreases |answers|
  {
    if answers == [] then multiset{}
    else
      var last := |answers| - 1;
      Taken(target, lo, answers[..last], x) + if answers[last] == x then target[lo + last] else multiset{}
  }

  /** Just that has been taken out. */
  ghost predicate Reduced(prints: seq<Fingerprint>, left: seq<Fingerprint>, target: seq<Fingerprint>, lo: nat, answers: seq<int>)
    requires lo + |answers| <= |target|
  {
    |left| == |prints| && forall x | 0 <= x < |prints| :: left[x] == prints[x] - Taken(target, lo, answers, x)
  }

  /** Line `a` lies where the answers of the other lines leave room for one of line `i`. */
  ghost predicate Between(answers: seq<int>, i: nat, a: int) {
    && (forall j | 0 <= j < i && j < |answers| && answers[j] >= 0 :: answers[j] <= a)
    && (forall j | i < j < |answers| && answers[j] >= 0 :: a <= answers[j])
  }

  /** No line without an answer has anything in common with what is left of the lines that it could be given. */
  ghost predicate Exhausted(c: Chunk, target: seq<Fingerprint>, left: seq<Fingerprint>, lo: nat, answers: seq<int>, startA: int, endA: int)
    requires c.Valid() && |target| == c.lengthB && c.startA + c.lengthA <= |left| && lo + |answers| <= |target|
  {
    forall i: nat, a | i < |answers| && answers[i] == -1 && startA <= a < endA && c.InA(a) && c.Window(lo + i, a) && Between(answers, i, a) ::
      Similarity(target[lo + i], left[a]) == 0
  }

  lemma {:induction false} TakenJoin(target: seq<Fingerprint>, lo: nat, x: seq<int>, y: seq<int>, a: int)
    requires lo + |x| + |y| <= |target|
    ensures Taken(target, lo, x + y, a) == Taken(target, lo, x, a) + Taken(target, lo + |x|, y, a)
    decreases |y|
  {
    if y == [] {
      assert x + y == x;
    } else {
      assert (x + y)[..|x + y| - 1] == x + y[..|y| - 1];
      TakenJoin(target, lo, x, y[..|y| - 1], a);
    }
  }

  lemma TakenOne(target: seq<Fingerprint>, lo: nat, a: int, x: int)
    requires lo < |target|
    ensures Taken(target, lo, [a], x) == if a == x then target[lo] else multiset{}
  {
    assert [a][..0] == [];
  }

  lemma {:induction false} NothingTaken(target: seq<Fingerprint>, lo: nat, answers: seq<int>, x: int)
    requires lo + |answers| <= |target| && forall i | 0 <= i < |answers| :: answers[i] != x
    ensures Taken(target, lo, answers, x) == multiset{}
    decreases |answers|
  {
    if answers != [] {
      NothingTaken(target, lo, answers[..|answers| - 1], x);
    }
  }

  lemma TakeThrice(p: Fingerprint, m: Fingerprint, u: Fingerprint, v: Fingerprint)
    ensures ((p - m) - u) - v == p - (u + m + v)
  {
  }

  lemma TakenTogether(target: seq<Fingerprint>, lo: nat, x: seq<int>, a: int, y: seq<int>, i: int)
    requires lo + |x| + 1 + |y| <= |target|
    ensures Taken(target, lo, x + [a] + y, i)
      == Taken(target, lo, x, i) + (if a == i then target[lo + |x|] else multiset{}) + Taken(target, lo + |x| + 1, y, i)
  {
    hide Taken;
    TakenJoin(target, lo, x, [a], i);
    TakenJoin(target, lo, x + [a], y, i);
    TakenOne(target, lo + |x|, a, i);
  }

  lemma OneReduced(q0: Fingerprint, q1: Fingerprint, q2: Fingerprint, q3: Fingerprint, target: seq<Fingerprint>,
                   lo: nat, x: seq<int>, a: int, y: seq<int>, i: int)
    requires lo + |x| + 1 + |y| <= |target| && q1 == if a == i then q0 - target[lo + |x|] else q0
    requires q2 == q1 - Taken(target, lo, x, i) && q3 == q2 - Taken(target, lo + |x| + 1, y, i)
    ensures q3 == q0 - Taken(target, lo, x + [a] + y, i)
  {
    hide Taken;
    TakenTogether(target, lo, x, a, y, i);
    TakeThrice(q0, if a == i then target[lo + |x|] else multiset{}, Taken(target, lo, x, i), Taken(target, lo + |x| + 1, y, i));
  }

  /** What line `lo + |x|` takes first, and the lines before and after it then, is what all take. */
  lemma ReducedTogether(prints: seq<Fingerprint>, p1: seq<Fingerprint>, p2: seq<Fingerprint>, p3: seq<Fingerprint>, target: seq<Fingerprint>,
                        lo: nat, x: seq<int>, a: nat, y: seq<int>)
    requires lo + |x| + 1 + |y| <= |target| && a < |prints| && p1 == prints[a := prints[a] - target[lo + |x|]]
    requires Reduced(p1, p2, target, lo, x) && Reduced(p2, p3, target, lo + |x| + 1, y)
    ensures Reduced(prints, p3, target, lo, x + [a] + y)
  {
    hide Taken;
    forall i | 0 <= i < |prints| ensures p3[i] == prints[i] - Taken(target, lo, x + [a] + y, i) {
      OneReduced(prints[i], p1[i], p2[i], p3[i], target, lo, x, a, y, i);
    }
  }

  lemma ExhaustedShrinks(c: Chunk, target: seq<Fingerprint>, left: seq<Fingerprint>, left2: seq<Fingerprint>, lo: nat, answers: seq<int>,
                         startA: int, endA: int)
    requires c.Valid() && |target| == c.lengthB && c.startA + c.lengthA <= |left| == |left2| && lo + |answers| <= |target|
    requires Exhausted(c, target, left, lo, answers, startA, endA) && forall x | 0 <= x < |left| :: left2[x] <= left[x]
    ensures Exhausted(c, target, left2, lo, answers, startA, endA)
  {
    hide Similarity, Chunk.Window, Chunk.Valid, Between;
    forall i: nat, a | i < |answers| && answers[i] == -1 && startA <= a < endA && c.InA(a) && c.Window(lo + i, a) && Between(answers, i, a)
      ensures Similarity(target[lo + i], left2[a]) == 0
    {
      SimilarityShrinks(target[lo + i], left2[a], left[a]);
    }
  }

  lemma BetweenLeft(x: seq<int>, a: int, y: seq<int>, i: nat, b: int)
    requires i < |x| && a >= 0 && Between(x + [a] + y, i, b)
    ensures Between(x, i, b) && b <= a
  {
    var all := x + [a] + y;
    assert all[|x|] == a;
    assert forall j | 0 <= j < |x| :: all[j] == x[j];
  }

  lemma BetweenRight(x: seq<int>, a: int, y: seq<int>, i: nat, b: int)
    requires |x| < i <= |x| + |y| && a >= 0 && Between(x + [a] + y, i, b)
    ensures Between(y, i - |x| - 1, b) && a <= b
  {
    var all := x + [a] + y;
    assert all[|x|] == a;
    assert forall j | 0 <= j < |y| :: all[|x| + 1 + j] == y[j];
  }

  /** The answers before and after an answered line exhaust what they could be given, so that together they do. */
  lemma ExhaustedTogether(c: Chunk, target: seq<Fingerprint>, left: seq<Fingerprint>, lo: nat, x: seq<int>, a: int, y: seq<int>, startA: int, endA: int)
    requires c.Valid() && |target| == c.lengthB && c.startA + c.lengthA <= |left| && lo + |x| + 1 + |y| <= |target| && a >= 0
    requires Exhausted(c, target, left, lo, x, startA, a + 1) && Exhausted(c, target, left, lo + |x| + 1, y, a, endA)
    ensures Exhausted(c, target, left, lo, x + [a] + y, startA, endA)
  {
    hide Similarity, Chunk.Window, Chunk.Valid, Between;
    var all := x + [a] + y;
    forall i: nat, b | i < |all| && all[i] == -1 && startA <= b < endA && c.InA(b) && c.Window(lo + i, b) && Between(all, i, b)
      ensures Similarity(target[lo + i], left[b]) == 0
    {
      assert all[|x|] == a;
      if i < |x| {
        BetweenLeft(x, a, y, i, b);
        assert x[i] == -1;
      } else {
        BetweenRight(x, a, y, i, b);
        assert y[i - |x| - 1] == -1 && lo + i == lo + |x| + 1 + (i - |x| - 1);
      }
    }
  }

  // ---------- the matcher ----------

  class Matcher {
    const chunk: Chunk
    const distA: nat
    const distB: nat
    const printsA: array<Fingerprint>      // of the whole parent file, consumed as lines match
    const printsB: seq<Fingerprint>        // of the chunk's target lines
    const similarities: array2<int>        // row: line of B; column distA: its closest line of A
    const certainties: array<int>
    const secondBest: array<int>
    const result: array<int>
    ghost const prints0: seq<Fingerprint>  // printsA as it was at the start

    ghost predicate Shape() {
      && chunk.Valid() && distA == chunk.SearchDistanceA() && distB == chunk.SearchDistanceB()
      && |printsB| == chunk.lengthB
      && chunk.startA + chunk.lengthA <= printsA.Length == |prints0|
      && similarities.Length0 == chunk.lengthB && similarities.Length1 == 2 * distA + 1
      && certainties.Length == secondBest.Length == result.Length == chunk.lengthB
      && certainties != secondBest && certainties != result && secondBest != result
    }

    /** Column of line `a` of A in the row of line `b` of B. */
    ghost function Column(b: nat, a: int): nat
      requires Shape() && chunk.Window(b, a)
    {
      a - chunk.Closest(b) + distA
    }

    /** Lines `b` and `a` have a byte pair in common, before anything was consumed. */
    ghost predicate Shares(b: nat, a: int) {
      b < |printsB| && 0 <= a < |prints0| && Similarity(printsB[b], prints0[a]) > 0
    }

    /** No line is too long for the certainties. */
    ghost predicate AllLight() {
      Light(printsB)
    }

    /** The score of a pair: the cached similarity, or the one that would be computed now. */
    ghost function Score(b: nat, a: int): int
      requires Shape() && b < chunk.lengthB && chunk.InA(a) && chunk.Window(b, a)
      reads similarities, printsA
    {
      var cached := similarities[b, Column(b, a)];
      if cached == -1 then ScoreOf(printsB[b], printsA[a], Abs(a - chunk.Closest(b))) else cached
    }

    /** Fingerprints only shrink, and a positive cached similarity is a shared byte pair. */
    ghost predicate CacheOk()
      reads similarities, printsA
    {
      && Shape()
      && (forall a | 0 <= a < printsA.Length :: printsA[a] <= prints0[a])
      && (forall b: nat, a | b < chunk.lengthB && chunk.InA(a) && chunk.Window(b, a) ::
            similarities[b, Column(b, a)] == -1
            || (ScoreOk(b, a, similarities[b, Column(b, a)]) && Covers(b, printsA[a], similarities[b, Column(b, a)])))
    }

    /** A line that does not score with another has nothing in common with what is left of it. */
    ghost predicate Covers(b: nat, left: Fingerprint, score: int)
      requires b < |printsB|
    {
      AllLight() && score <= 0 ==> Similarity(printsB[b], left) == 0
    }

    ghost predicate ScoreOk(b: nat, a: int, score: int) {
      score <= INT_MAX && (score > 0 ==> Shares(b, a)) && (AllLight() ==> score <= 1000 * MAX_PAIRS)
    }

    /** `answer` lies in the lines [startA, endA) of A and in the window of line `b`, and shares a byte pair with it. */
    ghost predicate Placed(b: nat, answer: int, startA: int, endA: int)
      requires Shape()
    {
      startA <= answer < endA && chunk.Window(b, answer) && Shares(b, answer)
    }

    /** What is known of a line between two steps of the recursion on the lines [startA, endA) of A. */
    ghost predicate LineOk(b: nat, certainty: int, answer: int, startA: int, endA: int)
      requires Shape()
    {
      || certainty == CERTAINTY_NOT_CALCULATED
      || (certainty == CERTAIN_NOTHING_MATCHES && answer == -1)
      || (certainty > 0 && Placed(b, answer, startA, endA))
      // a certainty that left the range of an int
      || (!AllLight() && certainty < CERTAINTY_NOT_CALCULATED && Placed(b, answer, startA, endA))
    }

    /** All arithmetic stays within the range of an int. */
    ghost predicate Sane() {
      chunk.Fits() && AllLight()
    }

    /** Then the recursion confines each half to its side; otherwise only the chunk bounds the answers. */
    ghost function Low(startA: int): int {
      if Sane() then startA else chunk.startA
    }

    ghost function High(endA: int): int {
      if Sane() then endA else chunk.startA + chunk.lengthA
    }

    lemma Widened(b: nat, certainty: int, answer: int, startA: int, endA: int)
      requires Shape() && LineOk(b, certainty, answer, startA, endA)
      requires chunk.startA <= startA && endA <= chunk.startA + chunk.lengthA
      ensures LineOk(b, certainty, answer, Low(startA), High(endA))
    {
    }

    lemma ScoreIsOk(b: nat, a: int)
      requires CacheOk() && b < chunk.lengthB && chunk.InA(a) && chunk.Window(b, a)
      ensures ScoreOk(b, a, Score(b, a)) && Covers(b, printsA[a], Score(b, a))
    {
      if similarities[b, Column(b, a)] == -1 {
        var d := Abs(a - chunk.Closest(b));
        SimilarityShrinks(printsB[b], printsA[a], prints0[a]);
        ScoreMeansAlike(printsB[b], printsA[a], d);
        if AllLight() {
          LightScore(printsB[b], printsA[a], d);
          LightScoresAlike(printsB[b], printsA[a], d);
        }
        hide Similarity, ScoreOf;
      }
    }

    constructor (chunk: Chunk, printsA: array<Fingerprint>, printsB: seq<Fingerprint>)
      requires chunk.Valid() && |printsB| == chunk.lengthB && chunk.startA + chunk.lengthA <= printsA.Length
      ensures Shape() && CacheOk() && this.chunk == chunk && this.printsA == printsA && this.printsB == printsB
      ensures prints0 == printsA[..]
      ensures fresh(similarities) && fresh(certainties) && fresh(secondBest) && fresh(result)
      ensures forall i | 0 <= i < chunk.lengthB :: certainties[i] == CERTAINTY_NOT_CALCULATED && result[i] == -1
      ensures forall i, j | 0 <= i < similarities.Length0 && 0 <= j < similarities.Length1 :: similarities[i, j] == -1
    {
      this.chunk := chunk;
      this.printsA, this.printsB, this.prints0 := printsA, printsB, printsA[..];
      distA, distB := chunk.SearchDistanceA(), chunk.SearchDistanceB();
      similarities := new int[chunk.lengthB, 2 * chunk.SearchDistanceA() + 1]((i, j) => -1);
      certainties := new int[chunk.lengthB](_ => CERTAINTY_NOT_CALCULATED);
      secondBest := new int[chunk.lengthB](_ => -1);
      result := new int[chunk.lengthB](_ => -1);
    }

    // ---------- one line ----------

    /** The scores of line `b` by line of A; zero outside its window. */
    ghost function Scores(b: nat): (scores: seq<int>)
      requires Shape() && b < chunk.lengthB
      reads similarities, printsA
      ensures |scores| == chunk.startA + chunk.lengthA
      ensures forall a | 0 <= a < |scores| :: scores[a] == if chunk.InA(a) && chunk.Window(b, a) then Score(b, a) else 0
    {
      seq(chunk.startA + chunk.lengthA, a requires 0 <= a < chunk.startA + chunk.lengthA reads similarities, printsA =>
        if chunk.InA(a) && chunk.Window(b, a) then Score(b, a) else 0)
    }

    /** `best` is the first position in [lo, hi) with the highest score. */
    static ghost predicate IsBest(scores: seq<int>, lo: int, hi: int, best: int)
      requires 0 <= lo && hi <= |scores|
    {
      && lo <= best < hi && scores[best] > 0
      && (forall a | lo <= a < best :: scores[a] < scores[best])
      && (forall a | lo <= a < hi :: scores[a] <= scores[best])
    }

    static ghost predicate NonePositive(scores: seq<int>, lo: int, hi: int)
      requires 0 <= lo && hi <= |scores|
    {
      forall a | lo <= a < hi :: scores[a] <= 0
    }

    /** `second` is the highest positive score beside that of `best`, zero if there is none. */
    static ghost predicate IsSecond(scores: seq<int>, lo: int, hi: int, best: int, second: int)
      requires 0 <= lo && hi <= |scores|
    {
      && second >= 0 && (forall a | lo <= a < hi && a != best :: scores[a] <= second)
      && (second == 0 || exists a | lo <= a < hi && a != best :: scores[a] == second)
    }

    /** The lines of A in [startA, endA) that line `b` is compared with. */
    function SearchStart(b: nat, startA: nat): int
      requires Shape()
    {
      if chunk.Closest(b) - distA < startA then startA else chunk.Closest(b) - distA
    }

    function SearchEnd(b: nat, endA: nat): int
      requires Shape()
    {
      if chunk.Closest(b) + distA + 1 > endA then endA else chunk.Closest(b) + distA + 1
    }

    /** find_best_line_matches, for a line whose certainty is not known yet. */
    method FindBest(startA: nat, endA: nat, b: nat)
      requires CacheOk() && b < chunk.lengthB && certainties[b] == CERTAINTY_NOT_CALCULATED
      requires chunk.startA <= startA && endA <= chunk.startA + chunk.lengthA
      modifies similarities, certainties, secondBest, result
      ensures CacheOk() && LineOk(b, certainties[b], result[b], startA, endA) && certainties[b] != CERTAINTY_NOT_CALCULATED
      ensures forall i | 0 <= i < chunk.lengthB && i != b ::
        certainties[i] == old(certainties[i]) && result[i] == old(result[i]) && secondBest[i] == old(secondBest[i])
      ensures forall i: nat | i < chunk.lengthB :: Scores(i) == old(Scores(i))
      ensures Answered(b, certainties[b], result[b], Scores(b), startA, endA)
      ensures Settled(printsA[..], b, certainties[b], startA, endA)
    {
      hide Score, Scores, Column, CertaintyOf, Wrapped, Light, Barren;
      var lo, hi := SearchStart(b, startA), SearchEnd(b, endA);
      var best, bestIndex, second, secondIndex := Scan(b, startA, lo, hi);
      if best == 0 {
        BarrenIfNone(b, startA, endA);
        certainties[b] := CERTAIN_NOTHING_MATCHES;
        result[b] := -1;
      } else {
        ScoreIsOk(b, bestIndex);
        CertaintyIsCalculated(best, second);
        if best <= 1000 * MAX_PAIRS {
          LightCertainty(best, second);
        }
        certainties[b] := CertaintyOf(best, second);
        result[b] := bestIndex;
        secondBest[b] := secondIndex;
      }
    }

    /** Line `b` has nothing in common with what is left of the lines [startA, endA) of A that it is compared with. */
    ghost predicate Barren(prints: seq<Fingerprint>, b: nat, startA: int, endA: int)
      requires Shape() && |prints| == |prints0| && b < chunk.lengthB
    {
      forall a | startA <= a < endA && chunk.InA(a) && chunk.Window(b, a) :: Similarity(printsB[b], prints[a]) == 0
    }

    /** A line that is certain to match nothing. */
    ghost predicate Settled(prints: seq<Fingerprint>, b: nat, certainty: int, startA: int, endA: int)
      requires Shape() && |prints| == |prints0| && b < chunk.lengthB
    {
      Sane() && certainty == CERTAIN_NOTHING_MATCHES ==> Barren(prints, b, startA, endA)
    }

    ghost predicate AllSettled(prints: seq<Fingerprint>, certs: seq<int>, lo: nat, hi: nat, startA: int, endA: int)
      requires Shape() && |prints| == |prints0| && hi <= chunk.lengthB == |certs|
    {
      forall b: nat | lo <= b < hi :: Settled(prints, b, certs[b], startA, endA)
    }

    lemma BarrenIfNone(b: nat, startA: nat, endA: nat)
      requires CacheOk() && b < chunk.lengthB && chunk.startA <= startA && endA <= chunk.startA + chunk.lengthA
      requires NonePositive(Scores(b), SearchStart(b, startA), SearchEnd(b, endA))
      ensures AllLight() ==> Barren(printsA[..], b, startA, endA)
    {
      hide Score, ScoreOk, Column, Similarity;
      if AllLight() {
        forall a | startA <= a < endA && chunk.InA(a) && chunk.Window(b, a) ensures Similarity(printsB[b], printsA[..][a]) == 0 {
          ScoreIsOk(b, a);
          assert Scores(b)[a] == Score(b, a);
        }
      }
    }

    /** Less is left of the lines, and of a smaller part of them. */
    lemma BarrenShrinks(prints: seq<Fingerprint>, prints2: seq<Fingerprint>, b: nat, startA: int, endA: int, startA2: int, endA2: int)
      requires Shape() && |prints| == |prints2| == |prints0| && b < chunk.lengthB && Barren(prints, b, startA, endA)
      requires startA <= startA2 && endA2 <= endA && forall x | 0 <= x < |prints| :: prints2[x] <= prints[x]
      ensures Barren(prints2, b, startA2, endA2)
    {
      hide Similarity, Chunk.Window;
      forall a | startA2 <= a < endA2 && chunk.InA(a) && chunk.Window(b, a) ensures Similarity(printsB[b], prints2[a]) == 0 {
        SimilarityShrinks(printsB[b], prints2[a], prints[a]);
      }
    }

    /** What the scan of a line establishes: no match at all, or the first best one and its certainty. */
    ghost predicate Answered(b: nat, certainty: int, answer: int, scores: seq<int>, startA: nat, endA: nat)
      requires Shape() && endA <= |scores|
    {
      var from, to := SearchStart(b, startA), SearchEnd(b, endA);
      if NonePositive(scores, from, to) then
        certainty == CERTAIN_NOTHING_MATCHES && answer == -1
      else
        && IsBest(scores, from, to, answer)
        && exists second :: IsSecond(scores, from, to, answer, second) && certainty == CertaintyOf(scores[answer], second)
    }

    /** The search loop of find_best_line_matches. */
    method Scan(b: nat, startA: nat, lo: int, hi: int) returns (best: int, bestIndex: int, second: int, secondIndex: int)
      requires CacheOk() && b < chunk.lengthB && 0 <= lo && hi <= chunk.startA + chunk.lengthA
      requires forall a | lo <= a < hi :: chunk.InA(a) && chunk.Window(b, a)
      modifies similarities
      ensures CacheOk() && forall i: nat | i < chunk.lengthB :: Scores(i) == old(Scores(i))
      ensures 0 <= second <= best
      ensures best == 0 ==> NonePositive(Scores(b), lo, hi)
      ensures best > 0 ==> IsBest(Scores(b), lo, hi, bestIndex) && Scores(b)[bestIndex] == best
      ensures best > 0 ==> IsSecond(Scores(b), lo, hi, bestIndex, second)
    {
      hide Score, ScoreOk, Scores, Column;
      ghost var scores := Scores(b);
      best, bestIndex, second, secondIndex := 0, startA, 0, startA;
      var i := lo;
      while i < hi
        invariant lo <= i && (i <= hi || i == lo)
        invariant CacheOk() && forall i: nat | i < chunk.lengthB :: Scores(i) == old(Scores(i))
        invariant 0 <= second <= best
        invariant best == 0 ==> forall a | lo <= a < i :: scores[a] <= 0
        invariant best > 0 ==> i <= hi && IsBest(scores, lo, i, bestIndex) && scores[bestIndex] == best
        invariant best > 0 ==> IsSecond(scores, lo, i, bestIndex, second)
      {
        var similarity := Lookup(b, i, chunk.Closest(b));
        assert similarity == scores[i];
        if similarity > best {
          second, secondIndex := best, bestIndex;
          best, bestIndex := similarity, i;
        } else if similarity > second {
          second, secondIndex := similarity, i;
        }
        i := i + 1;
      }
    }

    /** The cached similarity of a pair, computed first if need be; no score changes. */
    method Lookup(b: nat, a: nat, closest: int) returns (similarity: int)
      requires CacheOk() && b < chunk.lengthB && chunk.InA(a) && chunk.Window(b, a) && closest == chunk.Closest(b)
      modifies similarities
      ensures CacheOk() && similarity == Scores(b)[a]
      ensures forall i: nat | i < chunk.lengthB :: Scores(i) == old(Scores(i))
    {
      hide ScoreOf, Light;
      ScoreIsOk(b, a);
      var column := a - closest + distA;
      if similarities[b, column] == -1 {
        similarities[b, column] := ScoreOf(printsB[b], printsA[a], Abs(a - closest));
      }
      similarity := similarities[b, column];
    }

    // ---------- the recursion ----------

    /** Nothing outside the lines [lo, hi) of B has changed. */
    static ghost predicate Same(before: seq<int>, after: seq<int>, lo: nat, hi: nat) {
      |before| == |after| && forall i | 0 <= i < |before| && !(lo <= i < hi) :: after[i] == before[i]
    }

    /** What is known of the lines [lo, hi) of B. */
    ghost predicate AllOk(certs: seq<int>, results: seq<int>, lo: nat, hi: nat, startA: int, endA: int)
      requires Shape() && hi <= chunk.lengthB == |certs| == |results|
    {
      forall b: nat | lo <= b < hi :: LineOk(b, certs[b], results[b], startA, endA)
    }

    /** Score every line, and pick the first one of the highest certainty; -1 if none matches. */
    method MostCertain(startA: nat, endA: nat, lo: nat, hi: nat) returns (most: int)
      requires CacheOk() && lo <= hi <= chunk.lengthB
      requires chunk.startA <= startA && endA <= chunk.startA + chunk.lengthA
      requires AllOk(certainties[..], result[..], lo, hi, Low(startA), High(endA))
      requires AllSettled(printsA[..], certainties[..], lo, hi, startA, endA)
      modifies similarities, certainties, secondBest, result
      ensures Same(old(certainties[..]), certainties[..], lo, hi) && Same(old(result[..]), result[..], lo, hi)
      ensures CacheOk() && AllSettled(printsA[..], certainties[..], lo, hi, startA, endA)
      ensures forall b: nat | b < chunk.lengthB :: Scores(b) == old(Scores(b))
      ensures AllOk(certainties[..], result[..], lo, hi, Low(startA), High(endA))
      ensures forall b | lo <= b < hi :: certainties[b] != CERTAINTY_NOT_CALCULATED
      ensures forall b | lo <= b < hi && old(certainties[b]) != CERTAINTY_NOT_CALCULATED ::
        certainties[b] == old(certainties[b]) && result[b] == old(result[b])
      ensures forall b | lo <= b < hi && old(certainties[b]) == CERTAINTY_NOT_CALCULATED :: Answered(b, certainties[b], result[b], Scores(b), startA, endA)
      ensures most == -1 ==> forall b | lo <= b < hi :: certainties[b] < CERTAINTY_NOT_CALCULATED
      ensures most != -1 ==> lo <= most < hi && certainties[most] > 0
      ensures most != -1 ==> forall b | lo <= b < hi :: certainties[b] <= certainties[most] && (b < most ==> certainties[b] < certainties[most])
    {
      hide Score, ScoreOk, Scores, Column, Answered, LineOk, Settled, AllSettled;
      most := -1;
      var certainty := -1;
      for i := lo to hi
        invariant CacheOk() && Same(old(certainties[..]), certainties[..], lo, i) && Same(old(result[..]), result[..], lo, i)
        invariant forall b: nat | b < chunk.lengthB :: Scores(b) == old(Scores(b))
        invariant forall b | lo <= b < hi :: LineOk(b, certainties[b], result[b], Low(startA), High(endA))
        invariant AllSettled(printsA[..], certainties[..], lo, hi, startA, endA)
        invariant forall b | lo <= b < i :: certainties[b] != CERTAINTY_NOT_CALCULATED
        invariant forall b | lo <= b < i && old(certainties[b]) != CERTAINTY_NOT_CALCULATED ::
          certainties[b] == old(certainties[b]) && result[b] == old(result[b])
        invariant forall b | lo <= b < i && old(certainties[b]) == CERTAINTY_NOT_CALCULATED :: Answered(b, certainties[b], result[b], Scores(b), startA, endA)
        invariant most == -1 ==> certainty == -1 && forall b | lo <= b < i :: certainties[b] < CERTAINTY_NOT_CALCULATED
        invariant most != -1 ==> lo <= most < i && certainties[most] == certainty > 0
        invariant most != -1 ==> forall b | lo <= b < i :: certainties[b] <= certainty && (b < most ==> certainties[b] < certainty)
      {
        if certainties[i] == CERTAINTY_NOT_CALCULATED {
          ghost var certs := certainties[..];
          FindBest(startA, endA, i);
          OneMoreSettled(printsA[..], certs, certainties[..], lo, hi, startA, endA, i);
          Widened(i, certainties[i], result[i], startA, endA);
        }
        LineOkCertainty(i, Low(startA), High(endA));
        if certainties[i] > certainty {
          certainty, most := certainties[i], i;
        }
      }
    }

    lemma LineOkCertainty(b: nat, startA: int, endA: int)
      requires Shape() && b < chunk.lengthB && LineOk(b, certainties[b], result[b], startA, endA)
      ensures certainties[b] <= CERTAINTY_NOT_CALCULATED || certainties[b] > 0
    {
    }

    /** Take what line `b` matched out of line `a`, and forget every similarity with it nearby. */
    method Consume(b: nat, a: nat, lo: nat, hi: nat)
      requires CacheOk() && lo <= b < hi <= chunk.lengthB && chunk.InA(a)
      modifies printsA, similarities
      ensures CacheOk() && printsA[..] == old(printsA[..])[a := old(printsA[a]) - printsB[b]]
    {
      hide Similarity, ScoreOk, Light;
      TakeOut(b, a);
      var from := if b - distB < lo then lo else b - distB;
      var to := if b + distB + 1 > hi then hi else b + distB + 1;
      var i := from;
      while i < to
        invariant lo <= i <= hi && CacheOk()
        modifies similarities
      {
        var closest := chunk.Closest(i);
        if Abs(a - closest) <= distA {
          similarities[i, a - closest + distA] := -1;
        }
        i := i + 1;
      }
    }

    /** fingerprint_subtract on line `a`. */
    method TakeOut(b: nat, a: nat)
      requires CacheOk() && b < chunk.lengthB && chunk.InA(a)
      modifies printsA
      ensures CacheOk() && printsA[..] == old(printsA[..])[a := old(printsA[a]) - printsB[b]]
    {
      hide Similarity, ScoreOk, Light;
      printsA[a] := printsA[a] - printsB[b];
      forall i: nat, x | i < chunk.lengthB && chunk.InA(x) && chunk.Window(i, x) && similarities[i, Column(i, x)] != -1
        ensures ScoreOk(i, x, similarities[i, Column(i, x)]) && Covers(i, printsA[x], similarities[i, Column(i, x)])
      {
        SimilarityShrinks(printsB[i], printsA[x], old(printsA[x]));
      }
    }

    /** Line `b` is near line `most`, and one of its two best answers is not on its side of `a`. */
    ghost predicate Crosses(b: nat, most: nat, a: int, certainty: int, answer: int, second: int) {
      && certainty >= 0
      && if b < most then most - distB <= b && (answer >= a || second >= a)
         else most < b <= most + distB && (answer <= a || second <= a)
    }

    /** Discard the answers near line `most` that contradict the order its own answer imposes, and no other. */
    method Invalidate(most: nat, a: int, lo: nat, hi: nat)
      requires Shape() && lo <= most < hi <= chunk.lengthB
      modifies certainties
      ensures forall b: nat | b < chunk.lengthB ::
        certainties[b] == if lo <= b < hi && Crosses(b, most, a, old(certainties[b]), result[b], secondBest[b])
          then CERTAINTY_NOT_CALCULATED else old(certainties[b])
    {
      var from := if most - distB < lo then lo else most - distB;
      var to := if most + distB + 1 > hi then hi else most + distB + 1;
      var i: int := most - 1;
      while i >= from
        invariant from - 1 <= i < most
        invariant forall b: nat | b < chunk.lengthB ::
          certainties[b] == if i < b < most && lo <= b && Crosses(b, most, a, old(certainties[b]), result[b], secondBest[b])
            then CERTAINTY_NOT_CALCULATED else old(certainties[b])
      {
        if certainties[i] >= 0 && (result[i] >= a || secondBest[i] >= a) {
          certainties[i] := CERTAINTY_NOT_CALCULATED;
        }
        i := i - 1;
      }
      i := most + 1;
      while i < to
        invariant most < i <= to || (to <= i == most + 1)
        invariant forall b: nat | b < chunk.lengthB ::
          certainties[b] == if lo <= b < i && Crosses(b, most, a, old(certainties[b]), result[b], secondBest[b])
            then CERTAINTY_NOT_CALCULATED else old(certainties[b])
      {
        if certainties[i] >= 0 && (result[i] <= a || secondBest[i] <= a) {
          certainties[i] := CERTAINTY_NOT_CALCULATED;
        }
        i := i + 1;
      }
    }

    /** Outside the invalidated stretch, the windows themselves keep the answers in order. */
    lemma FarLinesInOrder(b: nat, most: nat)
      requires Shape() && chunk.Fits() && b < chunk.lengthB && most < chunk.lengthB
      requires chunk.Window(b, result[b]) && chunk.Window(most, result[most])
      ensures b < most - distB ==> result[b] < result[most]
      ensures most + distB < b ==> result[most] < result[b]
    {
      if b < most - distB {
        chunk.WindowsApart(b, most);
      }
      if most + distB < b {
        chunk.WindowsApart(most, b);
      }
    }

    /** Final answers for the lines of B from `lo` on: within the lines [startA, endA) of A, and never going backwards while all arithmetic is within an int. */
    ghost predicate Matched(lo: nat, answers: seq<int>, startA: int, endA: int)
      requires Shape()
    {
      && (forall i | 0 <= i < |answers| :: answers[i] == -1 || Placed(lo + i, answers[i], startA, endA))
      && (Sane() ==> forall i, j | 0 <= i < j < |answers| && answers[i] >= 0 && answers[j] >= 0 :: answers[i] <= answers[j])
    }

    /** Nothing between startA and endA scores with line `b`. */
    ghost predicate NoneScores(b: nat, scores: seq<int>, startA: nat, endA: nat)
      requires Shape() && endA <= |scores|
    {
      NonePositive(scores, SearchStart(b, startA), SearchEnd(b, endA))
    }

    /** Nothing between startA and endA scores with those of the lines [lo, hi) that are still to be scored. */
    ghost predicate AllNone(lo: nat, hi: nat, startA: nat, endA: nat)
      requires Shape() && hi <= chunk.lengthB && endA <= chunk.startA + chunk.lengthA
      reads certainties, similarities, printsA
    {
      forall b | lo <= b < hi && certainties[b] == CERTAINTY_NOT_CALCULATED :: NoneScores(b, Scores(b), startA, endA)
    }

    /** All of them are still to be scored. */
    static ghost predicate AllBlank(certs: seq<int>, lo: nat, hi: nat)
      requires hi <= |certs|
    {
      forall b | lo <= b < hi :: certs[b] == CERTAINTY_NOT_CALCULATED
    }

    static ghost predicate AllMissed(answers: seq<int>) {
      forall i | 0 <= i < |answers| :: answers[i] == -1
    }

    /** When no line gets an answer, nothing scores with those to be scored; and when that are all of them and nothing scores, none gets one. */
    static ghost predicate MissesExactly(answers: seq<int>, none: bool, blank: bool) {
      (AllMissed(answers) ==> none) && (none && blank ==> AllMissed(answers))
    }

    /** The most certain line, and what it means that there is none. */
    method Evaluate(startA: nat, endA: nat, lo: nat, hi: nat) returns (most: int)
      requires CacheOk() && lo <= hi <= chunk.lengthB && InChunk(startA, endA)
      requires AllOk(certainties[..], result[..], lo, hi, Low(startA), High(endA))
      requires AllSettled(printsA[..], certainties[..], lo, hi, startA, endA)
      modifies similarities, certainties, secondBest, result
      ensures Same(old(certainties[..]), certainties[..], lo, hi) && Same(old(result[..]), result[..], lo, hi)
      ensures CacheOk() && AllSettled(printsA[..], certainties[..], lo, hi, startA, endA)
      ensures AllOk(certainties[..], result[..], lo, hi, Low(startA), High(endA))
      ensures most == -1 ==> forall b | lo <= b < hi :: certainties[b] < CERTAINTY_NOT_CALCULATED
      ensures most == -1 ==>
        MissesExactly(result[lo..hi], old(AllNone(lo, hi, startA, endA)), old(AllBlank(certainties[..], lo, hi)))
      ensures most != -1 ==> lo <= most < hi && Placed(most, result[most], Low(startA), High(endA))
      ensures most != -1 ==> !(old(AllNone(lo, hi, startA, endA)) && old(AllBlank(certainties[..], lo, hi)))
    {
      assert Shape();
      hide CacheOk, Scores, Placed, NoneScores, Answered, Low, High, Sane, AllLight, AllSettled, Same, Chunk.Fits,
        Chunk.SearchDistanceB, Chunk.SearchDistanceA, Chunk.Closest;
      most := MostCertain(startA, endA, lo, hi);
      forall b | lo <= b < hi && old(certainties[b]) == CERTAINTY_NOT_CALCULATED
        ensures NoneScores(b, old(Scores(b)), startA, endA) <==> result[b] == -1
        ensures result[b] == -1 ==> certainties[b] == CERTAIN_NOTHING_MATCHES
      {
        MissMeansNoScore(b, certainties[b], result[b], old(Scores(b)), startA, endA);
      }
      if most != -1 {
        assert LineOk(most, certainties[..][most], result[..][most], Low(startA), High(endA));
        assert old(certainties[..])[most] == old(certainties[most]);
      } else {
        assert forall i | 0 <= i < hi - lo :: result[lo..hi][i] == result[lo + i];
        assert forall b | lo <= b < hi :: result[b] == result[lo..hi][b - lo] && old(certainties[..])[b] == old(certainties[b]);
      }
    }

    /** fuzzy_find_matching_lines_recurse on the lines [lo, hi) of B and [startA, endA) of A. */
    method Recurse(startA: nat, endA: nat, lo: nat, hi: nat) returns (ghost answers: seq<int>)
      requires CacheOk() && lo <= hi <= chunk.lengthB
      requires InChunk(startA, endA)
      requires AllOk(certainties[..], result[..], lo, hi, Low(startA), High(endA))
      requires AllSettled(printsA[..], certainties[..], lo, hi, startA, endA)
      modifies printsA, similarities, certainties, secondBest, result
      ensures Same(old(certainties[..]), certainties[..], lo, hi) && Same(old(result[..]), result[..], lo, hi)
      ensures CacheOk() && Stored(result[..], lo, hi, answers) && Matched(lo, answers, Low(startA), High(endA))
      ensures MissesExactly(answers, old(AllNone(lo, hi, startA, endA)), old(AllBlank(certainties[..], lo, hi)))
      ensures Finished(old(printsA[..]), printsA[..], lo, answers, startA, endA)
      decreases hi - lo, 1
    {
      assert Shape();
      hide CacheOk, Scores, Placed, Matched, AllOk, Same, AllNone, AllBlank, Low, High, InChunk, Sane, AllLight, AllSettled, Finished, Chunk.Fits,
        Chunk.SearchDistanceB, Chunk.SearchDistanceA, Chunk.Closest;
      ghost var certs, results := certainties[..], result[..];
      var most := Evaluate(startA, endA, lo, hi);
      ghost var certs1, results1 := certainties[..], result[..];
      if most == -1 {
        answers := result[lo..hi];
        MissesAreMatched(lo, hi, startA, endA);
        MissesFinish(lo, hi, startA, endA);
      } else {
        answers := Partition(most, startA, endA, lo, hi);
        assert answers[most - lo] >= 0;
        SameTwice(certs, certs1, certainties[..], lo, hi);
        SameTwice(results, results1, result[..], lo, hi);
      }
    }

    lemma SameTwice(s: seq<int>, s1: seq<int>, s2: seq<int>, lo: nat, hi: nat)
      requires Same(s, s1, lo, hi) && Same(s1, s2, lo, hi)
      ensures Same(s, s2, lo, hi)
    {
    }

    /** Line `most` keeps its answer and parts the others. */
    method Partition(most: nat, startA: nat, endA: nat, lo: nat, hi: nat) returns (ghost answers: seq<int>)
      requires CacheOk() && lo <= most < hi <= chunk.lengthB
      requires InChunk(startA, endA)
      requires Placed(most, result[most], Low(startA), High(endA))
      requires AllOk(certainties[..], result[..], lo, hi, Low(startA), High(endA))
      requires AllSettled(printsA[..], certainties[..], lo, hi, startA, endA)
      modifies printsA, similarities, certainties, secondBest, result
      ensures Same(old(certainties[..]), certainties[..], lo, hi) && Same(old(result[..]), result[..], lo, hi)
      ensures CacheOk() && Stored(result[..], lo, hi, answers) && Matched(lo, answers, Low(startA), High(endA))
      ensures Finished(old(printsA[..]), printsA[..], lo, answers, startA, endA)
      ensures answers[most - lo] == old(result[most]) >= 0
      decreases hi - lo, 0, 2
    {
      assert Shape();
      hide CacheOk, Scores, Placed, Matched, AllOk, Stored, Same, MissesExactly, Low, High, InChunk, Sane, AllLight, AllSettled, Finished, Without, Chunk.Valid, Chunk.Fits,
        Chunk.Window, Chunk.SearchDistanceB, Chunk.SearchDistanceA, Chunk.Closest;
      ghost var prints := printsA[..];
      PlacedInside(most, result[most], startA, endA);
      Commit(most, startA, endA, lo, hi);
      answers := Halves(most, startA, endA, lo, hi, prints);
    }

    /** Repeat the matching on one side, if there are lines left on it. */
    method Half(startA: nat, endA: nat, lo: nat, hi: nat) returns (ghost answers: seq<int>)
      requires CacheOk() && lo <= hi <= chunk.lengthB
      requires InChunk(startA, endA)
      requires AllOk(certainties[..], result[..], lo, hi, Low(startA), High(endA))
      requires AllSettled(printsA[..], certainties[..], lo, hi, startA, endA)
      modifies printsA, similarities, certainties, secondBest, result
      ensures Same(old(certainties[..]), certainties[..], lo, hi) && Same(old(result[..]), result[..], lo, hi)
      ensures CacheOk() && Stored(result[..], lo, hi, answers) && Matched(lo, answers, Low(startA), High(endA))
      ensures |answers| == hi - lo && Finished(old(printsA[..]), printsA[..], lo, answers, startA, endA)
      decreases hi - lo, 2
    {
      assert Shape();
      hide CacheOk, Scores, Placed, Matched, AllOk, Stored, Same, MissesExactly, Low, High, InChunk, Sane, AllLight, AllSettled, Finished, Chunk.Fits;
      answers := [];
      EmptyMatched(lo, Low(startA), High(endA));
      EmptyFinished(printsA[..], lo, startA, endA);
      if lo < hi {
        answers := Recurse(startA, endA, lo, hi);
      }
    }

    /** Repeat the matching before and after line `most`. */
    method Halves(most: nat, startA: nat, endA: nat, lo: nat, hi: nat, ghost prints: seq<Fingerprint>) returns (ghost answers: seq<int>)
      requires CacheOk() && lo <= most < hi <= chunk.lengthB
      requires InChunk(startA, endA)
      requires Placed(most, result[most], Low(startA), High(endA))
      requires AllOk(certainties[..], result[..], lo, most, Low(startA), High(result[most] + 1))
      requires AllOk(certainties[..], result[..], most + 1, hi, Low(result[most]), High(endA))
      requires AllSettled(printsA[..], certainties[..], lo, most, startA, result[most] + 1)
      requires AllSettled(printsA[..], certainties[..], most + 1, hi, result[most], endA)
      requires |prints| == printsA.Length && Without(prints, printsA[..], result[most], most)
      modifies printsA, similarities, certainties, secondBest, result
      ensures |answers| == hi - lo && Finished(prints, printsA[..], lo, answers, startA, endA)
      ensures Same(old(certainties[..]), certainties[..], lo, hi) && Same(old(result[..]), result[..], lo, hi)
      ensures CacheOk() && Stored(result[..], lo, hi, answers) && Matched(lo, answers, Low(startA), High(endA))
      ensures answers[most - lo] == old(result[most])
      decreases hi - lo, 0, 1
    {
      assert Shape();
      hide CacheOk, Scores, Placed, Matched, AllOk, Stored, Same, MissesExactly, Low, High, InChunk, Sane, AllLight, AllSettled, Finished, Without, Chunk.Valid, Chunk.Fits,
        Chunk.Window, Chunk.SearchDistanceB, Chunk.SearchDistanceA, Chunk.Closest;
      var a := result[most];
      ghost var p1, certs, results := printsA[..], certainties[..], result[..];
      PlacedInside(most, a, startA, endA);
      ghost var left := Half(startA, a + 1, lo, most);
      ghost var p2, certs1, results1 := printsA[..], certainties[..], result[..];
      OkBehind(certs, certs1, results, results1, lo, most, hi, Low(a), High(endA));
      StillSettled(p1, p2, lo, left, startA, a + 1, certs, certs1, most + 1, hi, a, endA);
      StoredAlone(results, results1, lo, most);
      answers := SecondHalf(most, startA, endA, lo, hi, prints, p1, certs, results, left);
    }

    /** The lines after line `most`, when `left` are the answers of those before it. */
    method SecondHalf(most: nat, startA: nat, endA: nat, lo: nat, hi: nat, ghost prints: seq<Fingerprint>, ghost p1: seq<Fingerprint>,
                      ghost certs: seq<int>, ghost results: seq<int>, ghost left: seq<int>)
      returns (ghost answers: seq<int>)
      requires CacheOk() && lo <= most < hi <= chunk.lengthB && InChunk(startA, endA)
      requires Placed(most, result[most], Low(startA), High(endA))
      requires AllOk(certainties[..], result[..], most + 1, hi, Low(result[most]), High(endA))
      requires AllSettled(printsA[..], certainties[..], most + 1, hi, result[most], endA)
      requires Same(certs, certainties[..], lo, most) && Same(results, result[..], lo, most)
      requires Stored(result[..], lo, most, left) && Matched(lo, left, Low(startA), High(result[most] + 1))
      requires |prints| == |p1| == printsA.Length && Without(prints, p1, result[most], most) && |left| == most - lo
      requires Finished(p1, printsA[..], lo, left, startA, result[most] + 1)
      modifies printsA, similarities, certainties, secondBest, result
      ensures Same(certs, certainties[..], lo, hi) && Same(results, result[..], lo, hi)
      ensures CacheOk() && Stored(result[..], lo, hi, answers) && Matched(lo, answers, Low(startA), High(endA))
      ensures |answers| == hi - lo && Finished(prints, printsA[..], lo, answers, startA, endA)
      ensures answers[most - lo] == old(result[most])
      decreases hi - lo, 0, 0
    {
      assert Shape();
      hide CacheOk, Scores, Placed, Matched, AllOk, Stored, Same, MissesExactly, Low, High, InChunk, Sane, AllLight, AllSettled, Finished, Without,
        Chunk.Valid, Chunk.Fits, Chunk.Window, Chunk.SearchDistanceB, Chunk.SearchDistanceA, Chunk.Closest;
      var a := result[most];
      ghost var p2, certs1, results1 := printsA[..], certainties[..], result[..];
      PlacedInside(most, a, startA, endA);
      ghost var right := Half(a, endA, most + 1, hi);
      answers := left + [a] + right;
      BothHalves(certs, certs1, certainties[..], lo, most, hi);
      BothHalves(results, results1, result[..], lo, most, hi);
      StoredBefore(results1, result[..], lo, most, hi, left);
      HalvesTogether(prints, p1, p2, lo, left, a, right, hi, startA, endA);
    }

    lemma StoredAlone(results: seq<int>, results1: seq<int>, lo: nat, most: nat)
      requires lo <= most < |results| && Same(results, results1, lo, most)
      ensures results1[most] == results[most]
    {
    }

    /** What the first half leaves alone. */
    lemma OkBehind(certs: seq<int>, certs1: seq<int>, results: seq<int>, results1: seq<int>, lo: nat, most: nat, hi: nat, startA: int, endA: int)
      requires Shape() && most < hi <= chunk.lengthB == |certs| == |results| && Same(certs, certs1, lo, most) && Same(results, results1, lo, most)
      requires AllOk(certs, results, most + 1, hi, startA, endA)
      ensures AllOk(certs1, results1, most + 1, hi, startA, endA) && forall b | most < b < hi :: certs1[b] == certs[b]
    {
      hide LineOk;
    }

    lemma BothHalves(s: seq<int>, s1: seq<int>, s2: seq<int>, lo: nat, most: nat, hi: nat)
      requires lo <= most < hi <= |s| && Same(s, s1, lo, most) && Same(s1, s2, most + 1, hi)
      ensures Same(s, s2, lo, hi) && s2[most] == s1[most] == s[most]
    {
    }

    lemma StoredBefore(results1: seq<int>, results2: seq<int>, lo: nat, most: nat, hi: nat, left: seq<int>)
      requires Stored(results1, lo, most, left) && Same(results1, results2, most + 1, hi)
      ensures Stored(results2, lo, most, left)
    {
    }

    lemma HalvesTogether(prints: seq<Fingerprint>, p1: seq<Fingerprint>, p2: seq<Fingerprint>,
                         lo: nat, left: seq<int>, a: nat, right: seq<int>, hi: nat, startA: nat, endA: nat)
      requires Shape() && lo + |left| < hi <= chunk.lengthB && result[lo + |left|] == a && InChunk(startA, endA)
      requires Stored(result[..], lo, lo + |left|, left) && Stored(result[..], lo + |left| + 1, hi, right) && Placed(lo + |left|, a, Low(startA), High(endA))
      requires Matched(lo, left, Low(startA), High(a + 1)) && Matched(lo + |left| + 1, right, Low(a), High(endA))
      requires |prints| == |p1| == |p2| == |prints0| && Without(prints, p1, a, lo + |left|)
      requires Finished(p1, p2, lo, left, startA, a + 1) && Finished(p2, printsA[..], lo + |left| + 1, right, a, endA)
      ensures var answers := left + [a] + right;
        && Stored(result[..], lo, hi, answers) && Matched(lo, answers, Low(startA), High(endA))
        && Finished(prints, printsA[..], lo, answers, startA, endA)
    {
      hide Placed, Matched, Low, High, InChunk, Finished, Without, Chunk.Valid;
      StoredTogether(result[..], lo, left, a, right, hi);
      Assembled(lo, left, a, right, startA, endA);
      FinishedTogether(prints, p1, p2, printsA[..], lo, left, a, right, startA, endA);
    }

    /** Line `b` has been taken out of line `a`. */
    ghost predicate Without(prints: seq<Fingerprint>, left: seq<Fingerprint>, a: int, b: nat)
      requires b < |printsB|
    {
      0 <= a < |prints| && left == prints[a := prints[a] - printsB[b]]
    }

    /** What the answers of the lines [lo, hi) take has been taken, and what they leave has nothing for a line without one. */
    ghost predicate Finished(prints: seq<Fingerprint>, left: seq<Fingerprint>, lo: nat, answers: seq<int>, startA: int, endA: int)
      requires Shape() && |left| == |prints0| && lo + |answers| <= chunk.lengthB
    {
      && (AllLight() ==> Reduced(prints, left, printsB, lo, answers))
      && (Sane() ==> Exhausted(chunk, printsB, left, lo, answers, startA, endA))
    }

    lemma EmptyFinished(prints: seq<Fingerprint>, lo: nat, startA: int, endA: int)
      requires Shape() && |prints| == |prints0| && lo <= chunk.lengthB
      ensures Finished(prints, prints, lo, [], startA, endA)
    {
    }

    lemma ReducedShrinks(prints: seq<Fingerprint>, left: seq<Fingerprint>, lo: nat, answers: seq<int>)
      requires lo + |answers| <= |printsB| && Reduced(prints, left, printsB, lo, answers)
      ensures forall x | 0 <= x < |prints| :: left[x] <= prints[x]
    {
      hide Taken;
    }

    /** The first half leaves lines of the second one as they were. */
    lemma StillSettled(p1: seq<Fingerprint>, p2: seq<Fingerprint>, lo: nat, answers: seq<int>, startA: int, endA: int,
                       certs: seq<int>, certs2: seq<int>, lo2: nat, hi2: nat, startA2: int, endA2: int)
      requires Shape() && |p1| == |p2| == |prints0| && lo + |answers| <= chunk.lengthB && hi2 <= chunk.lengthB == |certs| == |certs2|
      requires Finished(p1, p2, lo, answers, startA, endA) && AllSettled(p1, certs, lo2, hi2, startA2, endA2)
      requires forall b | lo2 <= b < hi2 :: certs2[b] == certs[b]
      ensures AllSettled(p2, certs2, lo2, hi2, startA2, endA2)
    {
      hide Reduced, Exhausted, Barren, AllLight;
      if Sane() {
        SaneIsLight();
        ReducedShrinks(p1, p2, lo, answers);
        forall b: nat | lo2 <= b < hi2 ensures Settled(p2, b, certs2[b], startA2, endA2) {
          if certs2[b] == CERTAIN_NOTHING_MATCHES {
            assert Settled(p1, b, certs[b], startA2, endA2);
            BarrenShrinks(p1, p2, b, startA2, endA2, startA2, endA2);
          }
        }
      }
    }

    /** So does the line between them. */
    lemma SettledBeside(prints: seq<Fingerprint>, p1: seq<Fingerprint>, certs: seq<int>, certs2: seq<int>, lo: nat, most: nat, hi: nat, a: nat,
                        startA: int, endA: int)
      requires Shape() && |prints| == |p1| == |prints0| && lo <= most < hi <= chunk.lengthB == |certs| == |certs2|
      requires AllSettled(prints, certs, lo, hi, startA, endA)
      requires forall b | lo <= b < hi :: certs2[b] == certs[b] || certs2[b] == CERTAINTY_NOT_CALCULATED
      requires (Sane() ==> startA <= a < endA) && forall x | 0 <= x < |prints| :: p1[x] <= prints[x]
      ensures AllSettled(p1, certs2, lo, most, startA, a + 1) && AllSettled(p1, certs2, most + 1, hi, a, endA)
    {
      hide Barren, AllLight;
      if Sane() {
        forall b: nat | lo <= b < hi ensures Settled(p1, b, certs2[b], startA, a + 1) && Settled(p1, b, certs2[b], a, endA) {
          if certs2[b] == CERTAIN_NOTHING_MATCHES {
            assert Settled(prints, b, certs[b], startA, endA);
            BarrenShrinks(prints, p1, b, startA, endA, startA, a + 1);
            BarrenShrinks(prints, p1, b, startA, endA, a, endA);
          }
        }
      }
    }

    lemma OneMoreSettled(prints: seq<Fingerprint>, certs: seq<int>, certs2: seq<int>, lo: nat, hi: nat, startA: int, endA: int, i: nat)
      requires Shape() && |prints| == |prints0| && lo <= i < hi <= chunk.lengthB == |certs| == |certs2|
      requires AllSettled(prints, certs, lo, hi, startA, endA) && Settled(prints, i, certs2[i], startA, endA)
      requires forall b | 0 <= b < |certs| && b != i :: certs2[b] == certs[b]
      ensures AllSettled(prints, certs2, lo, hi, startA, endA)
    {
      hide Settled;
    }

    lemma NoneSettled(prints: seq<Fingerprint>, certs: seq<int>, startA: int, endA: int)
      requires Shape() && |prints| == |prints0| && |certs| == chunk.lengthB && forall b | 0 <= b < |certs| :: certs[b] == CERTAINTY_NOT_CALCULATED
      ensures AllSettled(prints, certs, 0, chunk.lengthB, startA, endA)
    {
      hide Barren;
    }

    lemma FinishedTogether(prints: seq<Fingerprint>, p1: seq<Fingerprint>, p2: seq<Fingerprint>, p3: seq<Fingerprint>,
                           lo: nat, left: seq<int>, a: nat, right: seq<int>, startA: int, endA: int)
      requires Shape() && lo + |left| + 1 + |right| <= chunk.lengthB && |prints| == |p1| == |p2| == |p3| == |prints0|
      requires Without(prints, p1, a, lo + |left|)
      requires Finished(p1, p2, lo, left, startA, a + 1) && Finished(p2, p3, lo + |left| + 1, right, a, endA)
      ensures Finished(prints, p3, lo, left + [a] + right, startA, endA)
    {
      hide Reduced, Exhausted, AllLight;
      if AllLight() {
        ReducedTogether(prints, p1, p2, p3, printsB, lo, left, a, right);
      }
      if Sane() {
        SaneIsLight();
        ReducedShrinks(p2, p3, lo + |left| + 1, right);
        ExhaustedShrinks(chunk, printsB, p2, p3, lo, left, startA, a + 1);
        ExhaustedTogether(chunk, printsB, p3, lo, left, a, right, startA, endA);
      }
    }

    lemma SaneIsLight()
      ensures Sane() ==> AllLight()
    {
    }

    /** Where nothing was found, nothing is there. */
    lemma MissesFinish(lo: nat, hi: nat, startA: nat, endA: nat)
      requires Shape() && lo <= hi <= chunk.lengthB && AllSettled(printsA[..], certainties[..], lo, hi, startA, endA)
      requires AllOk(certainties[..], result[..], lo, hi, Low(startA), High(endA))
      requires forall b | lo <= b < hi :: certainties[b] < CERTAINTY_NOT_CALCULATED
      ensures Finished(printsA[..], printsA[..], lo, result[lo..hi], startA, endA)
    {
      hide Placed, Low, High, Light, Barren, Exhausted;
      var answers := result[lo..hi];
      if AllLight() {
        forall i | 0 <= i < |answers| ensures answers[i] == -1 && certainties[..][lo + i] == CERTAIN_NOTHING_MATCHES {
          assert LineOk(lo + i, certainties[..][lo + i], result[..][lo + i], Low(startA), High(endA));
        }
        forall x | 0 <= x < printsA.Length ensures printsA[..][x] == printsA[..][x] - Taken(printsB, lo, answers, x) {
          NothingTaken(printsB, lo, answers, x);
        }
        if Sane() {
          forall b: nat | lo <= b < hi ensures Barren(printsA[..], b, startA, endA) {
            assert Settled(printsA[..], b, certainties[..][b], startA, endA);
            assert certainties[..][lo + (b - lo)] == CERTAIN_NOTHING_MATCHES;
          }
          BarrenExhausts(printsA[..], lo, answers, startA, endA);
        }
      }
    }

    lemma BarrenExhausts(prints: seq<Fingerprint>, lo: nat, answers: seq<int>, startA: int, endA: int)
      requires Shape() && |prints| == |prints0| && lo + |answers| <= chunk.lengthB
      requires forall b: nat | lo <= b < lo + |answers| :: Barren(prints, b, startA, endA)
      ensures Exhausted(chunk, printsB, prints, lo, answers, startA, endA)
    {
      hide Similarity, Chunk.Window, Chunk.Valid, Between;
      forall i: nat, a | i < |answers| && answers[i] == -1 && startA <= a < endA && chunk.InA(a) && chunk.Window(lo + i, a) && Between(answers, i, a)
        ensures Similarity(printsB[lo + i], prints[a]) == 0
      {
        assert Barren(prints, lo + i, startA, endA);
      }
    }

    /** The result array holds these answers for the lines [lo, hi) of B. */
    ghost predicate Stored(results: seq<int>, lo: nat, hi: nat, answers: seq<int>) {
      lo <= hi <= |results| && |answers| == hi - lo && forall b | lo <= b < hi :: results[b] == answers[b - lo]
    }

    lemma StoredTogether(results: seq<int>, lo: nat, left: seq<int>, a: int, right: seq<int>, hi: nat)
      requires lo + |left| < hi <= |results| && results[lo + |left|] == a
      requires Stored(results, lo, lo + |left|, left) && Stored(results, lo + |left| + 1, hi, right)
      ensures Stored(results, lo, hi, left + [a] + right)
    {
    }

    /** Make the answer of line `most` final; what stays known on either side respects it. */
    method Commit(most: nat, startA: nat, endA: nat, lo: nat, hi: nat)
      requires CacheOk() && lo <= most < hi <= chunk.lengthB
      requires InChunk(startA, endA)
      requires Placed(most, result[most], Low(startA), High(endA))
      requires AllOk(certainties[..], result[..], lo, hi, Low(startA), High(endA))
      requires AllSettled(printsA[..], certainties[..], lo, hi, startA, endA)
      modifies printsA, similarities, certainties
      ensures CacheOk() && Same(old(certainties[..]), certainties[..], lo, hi) && Same(old(result[..]), result[..], lo, hi)
      ensures Without(old(printsA[..]), printsA[..], result[most], most)
      ensures AllSettled(printsA[..], certainties[..], lo, most, startA, result[most] + 1)
      ensures AllSettled(printsA[..], certainties[..], most + 1, hi, result[most], endA)
      ensures forall b: nat | lo <= b < hi ::
        certainties[b] == if Crosses(b, most, result[most], old(certainties[b]), result[b], secondBest[b])
          then CERTAINTY_NOT_CALCULATED else old(certainties[b])
      ensures AllOk(certainties[..], result[..], lo, most, Low(startA), High(result[most] + 1))
      ensures AllOk(certainties[..], result[..], most + 1, hi, Low(result[most]), High(endA))
    {
      assert Shape();
      hide CacheOk, Scores, Placed, AllSettled, Settled;
      var a := result[most];
      ghost var prints, certs := printsA[..], certainties[..];
      PlacedInside(most, a, startA, endA);
      Consume(most, a, lo, hi);
      Invalidate(most, a, lo, hi);
      SettledBeside(prints, printsA[..], certs, certainties[..], lo, most, hi, a, startA, endA);
      forall b: nat | lo <= b < hi && b != most && certainties[b] > 0
        ensures if b < most then Placed(b, result[b], Low(startA), High(a + 1)) else Placed(b, result[b], Low(a), High(endA))
      {
        PlacedBeside(b, most, startA, endA);
      }
    }

    lemma MissMeansNoScore(b: nat, certainty: int, answer: int, scores: seq<int>, startA: nat, endA: nat)
      requires Shape() && endA <= |scores| && Answered(b, certainty, answer, scores, startA, endA)
      ensures NoneScores(b, scores, startA, endA) <==> answer == -1
      ensures answer == -1 ==> certainty == CERTAIN_NOTHING_MATCHES
    {
      hide CertaintyOf;
    }

    /** Without any positive certainty the answers stand as they are; with no line too long there are none. */
    lemma MissesAreMatched(lo: nat, hi: nat, startA: nat, endA: nat)
      requires Shape() && lo <= hi <= chunk.lengthB
      requires AllOk(certainties[..], result[..], lo, hi, Low(startA), High(endA))
      requires forall b | lo <= b < hi :: certainties[b] < CERTAINTY_NOT_CALCULATED
      ensures Matched(lo, result[lo..hi], Low(startA), High(endA))
    {
      hide Placed, Low, High, Light;
      forall i | 0 <= i < hi - lo
        ensures result[lo..hi][i] == -1 || Placed(lo + i, result[lo..hi][i], Low(startA), High(endA))
        ensures Sane() ==> result[lo..hi][i] == -1
      {
        assert LineOk(lo + i, certainties[..][lo + i], result[..][lo + i], Low(startA), High(endA));
      }
    }

    /** Parts of the chunk that the recursion is called with; while all arithmetic is within an int, they are not empty. */
    ghost predicate InChunk(startA: int, endA: int) {
      && chunk.startA <= startA && endA <= chunk.startA + chunk.lengthA
      && (Sane() ==> startA < endA)
    }

    lemma PlacedInside(b: nat, a: int, startA: int, endA: int)
      requires Shape() && Placed(b, a, Low(startA), High(endA)) && InChunk(startA, endA)
      ensures chunk.InA(a) && chunk.Window(b, a) && InChunk(startA, a + 1) && InChunk(a, endA)
    {
    }

    lemma PlacedBeside(b: nat, most: nat, startA: int, endA: int)
      requires Shape() && b < chunk.lengthB && most < chunk.lengthB && b != most
      requires Placed(b, result[b], Low(startA), High(endA)) && Placed(most, result[most], Low(startA), High(endA))
      requires b < most && most - distB <= b ==> result[b] < result[most]
      requires most < b && b <= most + distB ==> result[most] < result[b]
      ensures if b < most then Placed(b, result[b], Low(startA), High(result[most] + 1)) else Placed(b, result[b], Low(result[most]), High(endA))
    {
      if Sane() {
        FarLinesInOrder(b, most);
      }
    }

    lemma EmptyMatched(lo: nat, startA: int, endA: int)
      requires Shape()
      ensures Matched(lo, [], startA, endA)
    {
    }

    /** The answers of both halves and of the most certain line between them are in order. */
    lemma Assembled(lo: nat, left: seq<int>, a: int, right: seq<int>, startA: int, endA: int)
      requires Shape() && InChunk(startA, endA) && Placed(lo + |left|, a, Low(startA), High(endA))
      requires Matched(lo, left, Low(startA), High(a + 1)) && Matched(lo + |left| + 1, right, Low(a), High(endA))
      ensures Matched(lo, left + [a] + right, Low(startA), High(endA))
    {
      var all := left + [a] + right;
      forall i | 0 <= i < |all|
        ensures all[i] == -1 || Placed(lo + i, all[i], Low(startA), High(endA))
        ensures Sane() && i < |left| ==> all[i] == -1 || startA <= all[i] <= a
        ensures Sane() && i > |left| ==> all[i] == -1 || a <= all[i] < endA
      {
        if i < |left| {
          assert all[i] == left[i];
        } else if i > |left| {
          assert all[i] == right[i - |left| - 1];
          assert lo + i == lo + |left| + 1 + (i - |left| - 1);
        }
      }
    }

    /** A line that scores with line `a` of A alone is answered by it, with the certainty of that score. */
    lemma LoneMatch(b: nat, a: int, certainty: int, answer: int, scores: seq<int>, startA: nat, endA: nat)
      requires Shape() && b < chunk.lengthB && startA <= a < endA <= |scores| && chunk.Window(b, a)
      requires scores[a] > 0 && forall x | 0 <= x < |scores| && x != a :: scores[x] == 0
      requires Answered(b, certainty, answer, scores, startA, endA)
      ensures answer == a && certainty == CertaintyOf(scores[a], 0)
    {
      hide CertaintyOf;
    }

    /** The first call of the recursion, from the state the constructor leaves. */
    method Run()
      requires CacheOk() && prints0 == printsA[..]
      requires forall i | 0 <= i < chunk.lengthB :: certainties[i] == CERTAINTY_NOT_CALCULATED
      requires forall i, j | 0 <= i < similarities.Length0 && 0 <= j < similarities.Length1 :: similarities[i, j] == -1
      modifies printsA, similarities, certainties, secondBest, result
      ensures Ordered(chunk, prints0, printsB, result[..]) && Leftover(chunk, prints0, printsB, printsA[..], result[..])
      ensures (forall b | 0 <= b < chunk.lengthB :: result[b] == -1) <==>
        forall b | 0 <= b < chunk.lengthB :: ScoresNothing(chunk, prints0, printsB, b)
    {
      assert Sane() <==> chunk.Fits() && Light(printsB);
      hide ScoreOf, Similarity, Light, NoneScores, ScoresNothing, CacheOk, Scores, Placed, Sane, Low, High, AllLight, AllSettled, AllNone, AllBlank,
        Finished, Ordered, Leftover, Matched, Same, Chunk.Fits, Chunk.Window, Chunk.SearchDistanceB, Chunk.SearchDistanceA, Chunk.Closest;
      FreshNone();
      WholeChunk();
      NoneSettled(printsA[..], certainties[..], chunk.startA, chunk.startA + chunk.lengthA);
      ghost var answers := Recurse(chunk.startA, chunk.startA + chunk.lengthA, 0, chunk.lengthB);
      assert result[..] == answers;
      MatchedIsOrdered(answers);
      FinishedIsLeftover(printsA[..], answers);
    }

    lemma FreshNone()
      requires Shape() && prints0 == printsA[..]
      requires forall i | 0 <= i < chunk.lengthB :: certainties[i] == CERTAINTY_NOT_CALCULATED
      requires forall i, j | 0 <= i < similarities.Length0 && 0 <= j < similarities.Length1 :: similarities[i, j] == -1
      ensures AllBlank(certainties[..], 0, chunk.lengthB)
      ensures AllNone(0, chunk.lengthB, chunk.startA, chunk.startA + chunk.lengthA) <==>
        forall b | 0 <= b < chunk.lengthB :: ScoresNothing(chunk, prints0, printsB, b)
    {
      hide NoneScores, ScoresNothing, Scores, Chunk.Valid;
      forall b: nat | b < chunk.lengthB
        ensures NoneScores(b, Scores(b), chunk.startA, chunk.startA + chunk.lengthA) <==> ScoresNothing(chunk, prints0, printsB, b)
      {
        FreshScores(b);
      }
    }

    lemma FinishedIsLeftover(left: seq<Fingerprint>, answers: seq<int>)
      requires Shape() && |left| == |prints0| && |answers| == chunk.lengthB
      requires Finished(prints0, left, 0, answers, chunk.startA, chunk.startA + chunk.lengthA)
      ensures Leftover(chunk, prints0, printsB, left, answers)
    {
      hide Light, Reduced, Exhausted;
    }

    lemma WholeChunk()
      requires Shape()
      ensures InChunk(chunk.startA, chunk.startA + chunk.lengthA)
      ensures Low(chunk.startA) == chunk.startA && High(chunk.startA + chunk.lengthA) == chunk.startA + chunk.lengthA
    {
    }

    lemma MatchedIsOrdered(answers: seq<int>)
      requires Shape() && |answers| == chunk.lengthB && Matched(0, answers, chunk.startA, chunk.startA + chunk.lengthA)
      ensures Ordered(chunk, prints0, printsB, answers)
    {
      hide Light, Similarity;
      forall b | 0 <= b < |answers| && answers[b] != -1
        ensures Alike(chunk, prints0, printsB, b, answers[b])
      {
        assert Placed(0 + b, answers[b], chunk.startA, chunk.startA + chunk.lengthA);
      }
    }

    /** Before anything is cached or consumed, the scores of a line are those of the files. */
    lemma FreshScores(b: nat)
      requires Shape() && prints0 == printsA[..] && b < chunk.lengthB
      requires forall i, j | 0 <= i < similarities.Length0 && 0 <= j < similarities.Length1 :: similarities[i, j] == -1
      ensures NoneScores(b, Scores(b), chunk.startA, chunk.startA + chunk.lengthA) <==> ScoresNothing(chunk, prints0, printsB, b)
    {
      hide ScoreOf, Light;
      var scores := Scores(b);
      forall a | chunk.InA(a) && chunk.Window(b, a)
        ensures scores[a] > 0 <==> Scoring(chunk, prints0, printsB, b, a)
        ensures SearchStart(b, chunk.startA) <= a < SearchEnd(b, chunk.startA + chunk.lengthA)
      {
        assert similarities[b, Column(b, a)] == -1;
      }
    }
  }

  // ---------- the whole chunk ----------

  /** Two lines of the chunk that are compared with each other and have a byte pair in common. */
  ghost predicate Alike(c: Chunk, parent: seq<Fingerprint>, target: seq<Fingerprint>, b: nat, a: int)
    requires c.Valid() && |target| == c.lengthB && c.startA + c.lengthA <= |parent| && b < c.lengthB
  {
    c.InA(a) && c.Window(b, a) && Similarity(target[b], parent[a]) > 0
  }

  /** Two lines of the chunk that are compared with each other and have a positive score. */
  ghost predicate Scoring(c: Chunk, parent: seq<Fingerprint>, target: seq<Fingerprint>, b: nat, a: int)
    requires c.Valid() && |target| == c.lengthB && c.startA + c.lengthA <= |parent| && b < c.lengthB
  {
    c.InA(a) && c.Window(b, a) && ScoreOf(target[b], parent[a], Abs(a - c.Closest(b))) > 0
  }

  ghost predicate ScoresNothing(c: Chunk, parent: seq<Fingerprint>, target: seq<Fingerprint>, b: nat)
    requires c.Valid() && |target| == c.lengthB && c.startA + c.lengthA <= |parent| && b < c.lengthB
  {
    forall a :: !Scoring(c, parent, target, b, a)
  }

  ghost predicate AlikeToNone(c: Chunk, parent: seq<Fingerprint>, target: seq<Fingerprint>, b: nat)
    requires c.Valid() && |target| == c.lengthB && c.startA + c.lengthA <= |parent| && b < c.lengthB
  {
    forall a :: !Alike(c, parent, target, b, a)
  }

  /** For lines that are not too long that is the same. */
  lemma ScoringIsAlike(c: Chunk, parent: seq<Fingerprint>, target: seq<Fingerprint>, b: nat)
    requires c.Valid() && |target| == c.lengthB && c.startA + c.lengthA <= |parent| && b < c.lengthB
    ensures Light(target) ==> (ScoresNothing(c, parent, target, b) <==> AlikeToNone(c, parent, target, b))
  {
    hide ScoreOf, Similarity;
    if Light(target) {
      forall a ensures Scoring(c, parent, target, b, a) <==> Alike(c, parent, target, b, a) {
        if c.InA(a) && c.Window(b, a) {
          LightScoresAlike(target[b], parent[a], Abs(a - c.Closest(b)));
        }
      }
    }
  }

  /** Every answer is a parent line alike, and if all arithmetic is within an int, the answers never go backwards. */
  ghost predicate Ordered(c: Chunk, parent: seq<Fingerprint>, target: seq<Fingerprint>, answers: seq<int>)
    requires c.Valid() && |target| == |answers| == c.lengthB && c.startA + c.lengthA <= |parent|
  {
    && (forall b | 0 <= b < |answers| :: answers[b] == -1 || Alike(c, parent, target, b, answers[b]))
    && (c.Fits() && Light(target) ==>
         forall i, j | 0 <= i < j < |answers| && answers[i] >= 0 && answers[j] >= 0 :: answers[i] <= answers[j])
  }

  /**
   What the answered lines have in common with the parent lines that answer them is taken out of those, and, if all arithmetic is
   within an int, no other line has anything in common with what is left of the lines that it could be given between the others.
   */
  ghost predicate Leftover(c: Chunk, parent: seq<Fingerprint>, target: seq<Fingerprint>, left: seq<Fingerprint>, answers: seq<int>)
    requires c.Valid() && |target| == |answers| == c.lengthB && c.startA + c.lengthA <= |left| == |parent|
  {
    && (Light(target) ==> Reduced(parent, left, target, 0, answers))
    && (c.Fits() && Light(target) ==> Exhausted(c, target, left, 0, answers, c.startA, c.startA + c.lengthA))
  }

  /** Each target line has something in common with just one parent line that it is compared with, and these lines ascend. */
  ghost predicate Paired(c: Chunk, parent: seq<Fingerprint>, target: seq<Fingerprint>, pairs: seq<int>)
    requires c.Valid() && |target| == c.lengthB && c.startA + c.lengthA <= |parent|
  {
    && |pairs| == c.lengthB && (forall i, j | 0 <= i < j < |pairs| :: pairs[i] < pairs[j])
    && forall b: nat, a | b < c.lengthB :: Alike(c, parent, target, b, a) <==> a == pairs[b]
  }

  lemma NotTaken(parent: seq<Fingerprint>, target: seq<Fingerprint>, left: seq<Fingerprint>, answers: seq<int>, a: nat)
    requires |answers| <= |target| && Reduced(parent, left, target, 0, answers)
    requires a < |parent| && forall i | 0 <= i < |answers| :: answers[i] != a
    ensures left[a] == parent[a]
  {
    hide Taken;
    NothingTaken(target, 0, answers, a);
  }

  lemma ExhaustedAt(c: Chunk, target: seq<Fingerprint>, left: seq<Fingerprint>, answers: seq<int>, b: nat, a: nat)
    requires c.Valid() && |target| == |answers| == c.lengthB && c.startA + c.lengthA <= |left|
    requires Exhausted(c, target, left, 0, answers, c.startA, c.startA + c.lengthA)
    requires b < |answers| && answers[b] == -1 && c.InA(a) && c.Window(b, a) && Between(answers, b, a)
    ensures Similarity(target[b], left[a]) == 0
  {
    hide Similarity, Chunk.Window, Chunk.Valid, Between;
    assert c.Window(0 + b, a);
  }

  /** Such a chunk is answered completely. */
  lemma PairedIsAnswered(c: Chunk, parent: seq<Fingerprint>, target: seq<Fingerprint>, left: seq<Fingerprint>, answers: seq<int>, pairs: seq<int>)
    requires c.Valid() && c.Fits() && |target| == |answers| == c.lengthB && c.startA + c.lengthA <= |parent| == |left| && Light(target)
    requires Ordered(c, parent, target, answers) && Leftover(c, parent, target, left, answers) && Paired(c, parent, target, pairs)
    ensures answers == pairs
  {
    hide Light, Similarity, Reduced, Exhausted, Chunk.Window, Chunk.Valid, Chunk.Fits;
    assert forall j | 0 <= j < |answers| && answers[j] != -1 :: answers[j] == pairs[j];
    forall b: nat | b < |answers| ensures answers[b] == pairs[b] {
      assert Alike(c, parent, target, b, pairs[b]);
      if answers[b] == -1 {
        NotTaken(parent, target, left, answers, pairs[b]);
        ExhaustedAt(c, target, left, answers, b, pairs[b]);
        assert false;
      }
    }
  }

  /** No certainty can leave the range of an int, whatever the parent's lines are, exactly when no target line is too long. */
  lemma CertaintiesFit(c: Chunk, target: seq<Fingerprint>)
    requires c.Valid() && c.Fits() && |target| == c.lengthB
    ensures Light(target) <==>
      forall parent: seq<Fingerprint>, b: nat, a | |parent| == c.startA + c.lengthA && b < c.lengthB && c.InA(a) && c.Window(b, a) ::
        CertaintyFits(target[b], parent[a], Abs(a - c.Closest(b)))
  {
    hide ScoreOf, CertaintyFits;
    if Light(target) {
      forall parent: seq<Fingerprint>, b: nat, a | |parent| == c.startA + c.lengthA && b < c.lengthB && c.InA(a) && c.Window(b, a)
        ensures CertaintyFits(target[b], parent[a], Abs(a - c.Closest(b)))
      {
        LightCertaintyFits(target[b], parent[a], Abs(a - c.Closest(b)));
      }
    } else {
      var b: nat :| b < |target| && |target[b]| > MAX_PAIRS;
      c.ProductFits(b);
      c.ScaledInChunk(b);
      var a := c.Closest(b);
      var parent := seq(c.startA + c.lengthA, _ => target[b]);
      HeavyCertaintyDoesNot(target[b]);
      assert !CertaintyFits(target[b], parent[a], Abs(a - c.Closest(b)));
    }
  }

  /** The score of two lines, and each certainty of which it is the better score, are what they would be without bounds. */
  ghost predicate CertaintyFits(x: Fingerprint, y: Fingerprint, d: nat) {
    var score := Similarity(x, y) * (1000 - d);
    score <= INT_MAX && forall second | 0 <= second <= score :: score > 0 ==> CertaintyOf(score, second) == score * 2 - second
  }

  lemma LightCertaintyFits(x: Fingerprint, y: Fingerprint, d: nat)
    requires |x| <= MAX_PAIRS && d <= 1000
    ensures CertaintyFits(x, y, d)
  {
    LightScore(x, y, d);
    hide Similarity, CertaintyOf;
    var score := Similarity(x, y) * (1000 - d);
    forall second | 0 <= second <= score ensures score > 0 ==> CertaintyOf(score, second) == score * 2 - second {
      if score > 0 {
        LightCertainty(score, second);
      }
    }
  }

  lemma HeavyCertaintyDoesNot(x: Fingerprint)
    requires |x| > MAX_PAIRS
    ensures !CertaintyFits(x, x, 0)
  {
    assert x * x == x;
    assert CertaintyOf(|x| * 1000, 0) <= INT_MAX < |x| * 1000 * 2;
  }

  /** Target lines [tlno, same) against `parentLength` parent lines from `parentStart`; None is the NULL result. */
  method FuzzyFindMatchingLines(parent: array<Fingerprint>, target: seq<Fingerprint>,
                                tlno: nat, parentStart: nat, same: nat, parentLength: int)
    returns (answers: Option<array<int>>)
    requires tlno < same <= |target| && parentStart + parentLength <= parent.Length
    requires parentLength > 0 ==> Chunk(parentStart, parentLength, same - tlno).Valid()
    modifies parent
    ensures answers.None? <==> parentLength <= 0
    ensures answers.Some? ==>
      var r, c, was, now := answers.value, Chunk(parentStart, parentLength, same - tlno), old(parent[..]), target[tlno..same];
      && r.Length == same - tlno && Ordered(c, was, now, r[..]) && Leftover(c, was, now, parent[..], r[..])
      // no line is matched exactly when none scores with another, which for lines that are not too long means that none are alike
      && ((forall b | 0 <= b < r.Length :: r[b] == -1) <==> forall b | 0 <= b < r.Length :: ScoresNothing(c, was, now, b))
      && (Light(now) ==> ((forall b | 0 <= b < r.Length :: r[b] == -1) <==> forall b | 0 <= b < r.Length :: AlikeToNone(c, was, now, b)))
  {
    hide Light, ScoresNothing, AlikeToNone, Ordered, Leftover;
    if parentLength <= 0 {
      return None;
    }
    var chunk := Chunk(parentStart, parentLength, same - tlno);
    var m := new Matcher(chunk, parent, target[tlno..same]);
    m.Run();
    answers := Some(m.result);
    forall b: nat | b < chunk.lengthB
      ensures Light(target[tlno..same]) ==>
        (ScoresNothing(chunk, old(parent[..]), target[tlno..same], b) <==> AlikeToNone(chunk, old(parent[..]), target[tlno..same], b))
    {
      ScoringIsAlike(chunk, old(parent[..]), target[tlno..same], b);
    }
  }
}
