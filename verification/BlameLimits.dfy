/**
 Where the arithmetic of the fuzzy matcher of blame.c leaves the range of an int, and what it answers then.
 */
module BlameLimits {
  import opened BlameMatch
  import opened Fingerprints
  import opened Wrappers

  // ---------- where the map breaks ----------

  /** Three lines against so many that the product for the last one leaves the range of an int, and comes back as 4. */
  const OVERFLOWED: Chunk := Chunk(0, 858_993_460, 3)

  const FIRST_CLOSEST: nat := 143_165_576

  /** The last line is compared with the first lines of the parent, far before those of the first line; nothing invalidates that far. */
  lemma OverflowedMap()
    ensures OVERFLOWED.Valid() && !OVERFLOWED.Fits() && OVERFLOWED.SearchDistanceB() == 0
    ensures OVERFLOWED.Closest(0) == FIRST_CLOSEST && OVERFLOWED.Closest(2) == 0
    ensures !OVERFLOWED.InA(OVERFLOWED.Closest(1))
  {
    assert Wrapped(5 * 858_993_460) == 4;
  }

  const OVERFLOWED_TARGET: seq<Fingerprint> := [Pairs("x\n"), Pairs("\n"), Pairs("y\n")]

  /** The first and the last target line each have one parent line alike, the closest one. */
  ghost predicate OverflowedParent(parent: seq<Fingerprint>) {
    && |parent| == OVERFLOWED.lengthA
    && forall i | 0 <= i < |parent| ::
         parent[i] == Pairs(if i == 0 then "y\n" else if i == FIRST_CLOSEST then "x\n" else "\n")
  }

  lemma ShortLines()
    ensures Pairs("x\n") == multiset{0x7800, 0x78} && Pairs("y\n") == multiset{0x7900, 0x79} && Pairs("\n") == multiset{}
  {
    assert Code("x\n", 0) == 0x78 && Code("y\n", 0) == 0x79 && Code("\n", 0) == 0;
    hide Code, Pairs;
    ShortLine("x\n");
    ShortLine("y\n");
    BlankLine("\n");
  }

  lemma ShortLine(line: string)
    requires |line| == 2 && line[1] == '\n' && Code(line, 0) != 0
    ensures Pairs(line) == multiset{0x100 * Code(line, 0), Code(line, 0)}
  {
    assert Pair(line, 2) == 0 && Pair(line, 1) == Code(line, 0) && Pair(line, 0) == 0x100 * Code(line, 0);
    hide Code, Pair;
    assert PairsTo(line, 0) == multiset{};
    assert PairsTo(line, 1) == multiset{Pair(line, 0)};
    assert PairsTo(line, 2) == multiset{Pair(line, 0), Pair(line, 1)};
  }

  lemma BlankLine(line: string)
    requires |line| == 1 && line[0] == '\n'
    ensures Pairs(line) == multiset{}
  {
    assert Pair(line, 0) == 0 && Pair(line, 1) == 0;
    hide Code, Pair;
    assert PairsTo(line, 0) == multiset{};
    assert PairsTo(line, 1) == multiset{};
  }

  lemma ShortSimilarities()
    ensures var x, y, blank := Pairs("x\n"), Pairs("y\n"), Pairs("\n");
      && Similarity(x, x) == Similarity(y, y) == 2
      && Similarity(x, y) == Similarity(y, x) == Similarity(x, blank) == Similarity(y, blank) == 0
  {
    ShortLines();
    hide Pairs;
    var x, y := multiset{0x7800, 0x78}, multiset{0x7900, 0x79};
    assert x * x == x && y * y == y && x * y == multiset{} && y * x == multiset{};
    assert x * multiset{} == multiset{} && y * multiset{} == multiset{};
  }

  lemma OverflowedScores(m: Matcher, b: nat)
    requires m.Shape() && m.chunk == OVERFLOWED && m.printsB == OVERFLOWED_TARGET && OverflowedParent(m.printsA[..])
    requires forall i, j | 0 <= i < m.similarities.Length0 && 0 <= j < m.similarities.Length1 :: m.similarities[i, j] == -1
    requires b == 0 || b == 2
    ensures var a, scores := if b == 0 then FIRST_CLOSEST else 0, m.Scores(b);
      m.chunk.Window(b, a) && scores[a] == 2000 && forall x | 0 <= x < |scores| && x != a :: scores[x] == 0
  {
    OverflowedMap();
    ShortSimilarities();
    hide Chunk.Closest, Chunk.Valid, Similarity, Pairs;
    var a := if b == 0 then FIRST_CLOSEST else 0;
    forall x | 0 <= x < OVERFLOWED.lengthA && m.chunk.Window(b, x)
      ensures m.Score(b, x) == if x == a then 2000 else 0
    {
      assert m.printsA[x] == m.printsA[..][x];
    }
  }

  /** The middle line is mapped in front of the file, and compared with nothing. */
  lemma OverflowedMiddle(m: Matcher, certainty: int, answer: int, scores: seq<int>)
    requires m.Shape() && m.chunk == OVERFLOWED && |scores| == OVERFLOWED.lengthA
    requires m.Answered(1, certainty, answer, scores, 0, OVERFLOWED.lengthA)
    ensures certainty == CERTAIN_NOTHING_MATCHES
  {
    assert m.chunk.Closest(1) == -286_331_152;
  }

  /** The recursion on that chunk, call by call: the order of the answers falls. */
  method OverflowedRun(parent: array<Fingerprint>) returns (answers: seq<int>)
    requires parent.Length == OVERFLOWED.lengthA && OverflowedParent(parent[..])
    modifies parent
    ensures |answers| == 3 && answers[0] == FIRST_CLOSEST && answers[2] == 0
  {
    hide Pairs, OverflowedParent, Matcher.CacheOk, Matcher.Scores, Matcher.Answered, Matcher.Placed, Matcher.MissesExactly, Matcher.Matched,
      Matcher.Stored, Chunk.Closest, Chunk.Fits, Chunk.Window, Chunk.Valid, Chunk.SearchDistanceB;
    OverflowedMap();
    var c := OVERFLOWED;
    var m := new Matcher(c, parent, OVERFLOWED_TARGET);
    OverflowedScores(m, 0);
    OverflowedScores(m, 2);
    ghost var first, last := m.Scores(0), m.Scores(2);
    var most := m.MostCertain(0, c.lengthA, 0, 3);
    m.LoneMatch(0, FIRST_CLOSEST, m.certainties[0], m.result[0], first, 0, c.lengthA);
    m.LoneMatch(2, 0, m.certainties[2], m.result[2], last, 0, c.lengthA);
    assert m.certainties[0] == m.certainties[2] == 4000 && m.result[0] == FIRST_CLOSEST && m.result[2] == 0;
    OverflowedMiddle(m, m.certainties[1], m.result[1], m.Scores(1));
    m.Commit(0, 0, c.lengthA, 0, 3);
    assert m.certainties[1] == CERTAIN_NOTHING_MATCHES && m.certainties[2] == 4000 && m.result[2] == 0;
    // nothing before line 0; lines 1 and 2 after it
    most := m.MostCertain(FIRST_CLOSEST, c.lengthA, 1, 3);
    assert most == 2;
    m.Commit(2, FIRST_CLOSEST, c.lengthA, 1, 3);
    // line 1 before line 2; nothing after it
    ghost var rest := m.Recurse(FIRST_CLOSEST, 1, 1, 2);
    answers := m.result[..];
  }

  // ---------- where the certainty breaks ----------

  /** A line that repeats two letters. */
  function Repeated(x: char, y: char, n: nat): string {
    seq(2 * n, i => if i % 2 == 0 then x else y) + "\n"
  }

  lemma RepeatedCode(x: char, y: char, n: nat, i: int)
    ensures Code(Repeated(x, y, n), i) == if 0 <= i < 2 * n then Code([if i % 2 == 0 then x else y], 0) else 0
  {
  }

  lemma RepeatedPairs(x: char, y: char, n: nat)
    requires Code([x], 0) != 0 && Code([y], 0) != 0 && n > 0
    ensures |Pairs(Repeated(x, y, n))| == 2 * n + 1
  {
    hide Code;
    var line := Repeated(x, y, n);
    forall i { RepeatedCode(x, y, n, i); }
    assert Pair(line, 2 * n + 1) == 0 && forall i | 0 <= i < 2 * n + 1 :: Pair(line, i) != 0;
    PairsCount(line, 2 * n + 1);
    assert Pairs(line) == PairsTo(line, 2 * n + 1);
  }

  /** Lines of different letters have nothing in common. */
  lemma RepeatedApart(x: char, y: char, u: char, v: char, n: nat)
    requires {Code([x], 0), Code([y], 0)} !! {Code([u], 0), Code([v], 0)}
    ensures Similarity(Pairs(Repeated(x, y, n)), Pairs(Repeated(u, v, n))) == 0
  {
    hide Code;
    var l, k := Repeated(x, y, n), Repeated(u, v, n);
    forall p | p in Pairs(l) ensures p !in Pairs(k) {
      if p in Pairs(k) {
        PairsAre(l, |l| + 1, p);
        PairsAre(k, |k| + 1, p);
        var i :| 0 <= i < |l| + 1 && Pair(l, i) == p;
        var j :| 0 <= j < |k| + 1 && Pair(k, j) == p;
        PairTellsBytes(l, i, k, j);
        RepeatedCode(x, y, n, i);
        RepeatedCode(x, y, n, i - 1);
        RepeatedCode(u, v, n, j);
        RepeatedCode(u, v, n, j - 1);
        assert false;
      }
    }
    assert Pairs(l) * Pairs(k) == multiset{};
  }

  /** Case does not change a line's pairs. */
  lemma RepeatedSame(x: char, y: char, u: char, v: char, n: nat)
    requires Code([x], 0) == Code([u], 0) && Code([y], 0) == Code([v], 0)
    ensures Pairs(Repeated(x, y, n)) == Pairs(Repeated(u, v, n))
  {
    hide Code;
    var l, k := Repeated(x, y, n), Repeated(u, v, n);
    forall i ensures Code(l, i) == Code(k, i) {
      RepeatedCode(x, y, n, i);
      RepeatedCode(u, v, n, i);
    }
    SamePairs(l, k, |l| + 1);
  }

  lemma SelfSimilarity(x: Fingerprint)
    ensures Similarity(x, x) == |x|
  {
    assert x * x == x;
  }

  const HEAVY: nat := 550_000

  /** Two lines of 1.1 million bytes, and in the parent the same two in capitals and the other way round. */
  ghost predicate HeavyLines(parent: seq<Fingerprint>, target: seq<Fingerprint>) {
    && parent == [Pairs(Repeated('C', 'D', HEAVY)), Pairs(Repeated('A', 'B', HEAVY))]
    && target == [Pairs(Repeated('a', 'b', HEAVY)), Pairs(Repeated('c', 'd', HEAVY))]
  }

  lemma HeavySimilarities(parent: seq<Fingerprint>, target: seq<Fingerprint>)
    requires HeavyLines(parent, target)
    ensures |target[0]| == |target[1]| == 1_100_001
    ensures Similarity(target[0], parent[1]) == Similarity(target[1], parent[0]) == 1_100_001
    ensures Similarity(target[0], parent[0]) == Similarity(target[1], parent[1]) == 0
  {
    Letters();
    hide Code, Pairs, Repeated, Similarity;
    RepeatedSame('a', 'b', 'A', 'B', HEAVY);
    RepeatedSame('c', 'd', 'C', 'D', HEAVY);
    RepeatedPairs('a', 'b', HEAVY);
    RepeatedPairs('c', 'd', HEAVY);
    SelfSimilarity(target[0]);
    SelfSimilarity(target[1]);
    RepeatedApart('a', 'b', 'C', 'D', HEAVY);
    RepeatedApart('c', 'd', 'A', 'B', HEAVY);
  }

  lemma Letters()
    ensures Code(['a'], 0) == Code(['A'], 0) == 97 && Code(['b'], 0) == Code(['B'], 0) == 98
    ensures Code(['c'], 0) == Code(['C'], 0) == 99 && Code(['d'], 0) == Code(['D'], 0) == 100
  {
  }

  lemma ScoreOfProduct(x: Fingerprint, y: Fingerprint, d: nat, similarity: nat)
    requires Similarity(x, y) == similarity
    ensures ScoreOf(x, y, d) == Wrapped(similarity * (1000 - d))
  {
  }

  lemma TwoByTwo()
    ensures var c := Chunk(0, 2, 2); c.Valid() && c.Fits() && c.Closest(0) == 0 && c.Closest(1) == 1 && c.SearchDistanceA() == 1
  {
    assert Wrapped(2) == 2 && Wrapped(6) == 6;
    hide Wrapped;
    assert Chunk(0, 2, 2).Product(0) == 2 && Chunk(0, 2, 2).Product(1) == 6;
  }

  lemma HeavyScores(m: Matcher, b: nat)
    requires m.Shape() && m.chunk == Chunk(0, 2, 2) && b < 2
    requires Similarity(m.printsB[b], m.printsA[1 - b]) == 1_100_001 && Similarity(m.printsB[b], m.printsA[b]) == 0
    requires forall i, j | 0 <= i < m.similarities.Length0 && 0 <= j < m.similarities.Length1 :: m.similarities[i, j] == -1
    ensures var scores := m.Scores(b);
      |scores| == 2 && m.chunk.Window(b, 1 - b) && scores[1 - b] == 1_098_900_999 && scores[b] == 0
  {
    TwoByTwo();
    hide Similarity, ScoreOf, Chunk.Closest, Chunk.SearchDistanceA, Chunk.Valid, Light;
    ScoreOfProduct(m.printsB[b], m.printsA[1 - b], 1, 1_100_001);
    ScoreOfProduct(m.printsB[b], m.printsA[b], 0, 0);
    assert m.similarities[b, m.Column(b, b)] == -1 && m.similarities[b, m.Column(b, 1 - b)] == -1;
    assert m.Score(b, 1 - b) == 1_098_900_999 && m.Score(b, b) == 0;
  }

  /** Both certainties come back below zero, so that nothing is matched first and both answers stand: the order falls. */
  method HeavyRun(parent: array<Fingerprint>, target: seq<Fingerprint>) returns (answers: seq<int>)
    requires parent.Length == 2 && |target| == 2 && HeavyLines(parent[..], target)
    modifies parent
    ensures Chunk(0, 2, 2).Valid() && Chunk(0, 2, 2).Fits() && answers == [1, 0]
  {
    hide Pairs, Repeated, HeavyLines, Matcher.CacheOk, Matcher.Scores, Matcher.Answered, Matcher.Placed, Chunk.Closest, Chunk.Window, Similarity;
    TwoByTwo();
    HeavySimilarities(parent[..], target);
    assert parent[..][0] == parent[0] && parent[..][1] == parent[1];
    var c := Chunk(0, 2, 2);
    var m := new Matcher(c, parent, target);
    HeavyScores(m, 0);
    HeavyScores(m, 1);
    ghost var first, second := m.Scores(0), m.Scores(1);
    var most := m.MostCertain(0, 2, 0, 2);
    m.LoneMatch(0, 1, m.certainties[0], m.result[0], first, 0, 2);
    m.LoneMatch(1, 0, m.certainties[1], m.result[1], second, 0, 2);
    assert m.certainties[0] == m.certainties[1] == -2_097_165_298;
    // no line beats -1, and the recursion returns
    assert most == -1;
    answers := m.result[..];
  }

  /** Two lines of 2.2 million bytes that differ in case. */
  lemma HeavyLine(x: Fingerprint, y: Fingerprint)
    requires x == Pairs(Repeated('A', 'B', 2 * HEAVY)) && y == Pairs(Repeated('a', 'b', 2 * HEAVY))
    ensures x == y && |x| == 2_200_001
  {
    Letters();
    hide Code, Pairs, Repeated;
    RepeatedSame('a', 'b', 'A', 'B', 2 * HEAVY);
    RepeatedPairs('a', 'b', 2 * HEAVY);
  }

  lemma OneByOne()
    ensures var c := Chunk(0, 1, 1); c.Valid() && c.Fits() && c.Closest(0) == 0 && c.SearchDistanceA() == 0
  {
  }

  /** The only line there is. */
  lemma LoneLineIsAlike(parent: seq<Fingerprint>, target: seq<Fingerprint>)
    requires |target| == |parent| == 1
    ensures Similarity(target[0], parent[0]) > 0 ==> Alike(Chunk(0, 1, 1), parent, target, 0, 0)
  {
    OneByOne();
    hide Similarity, Chunk.Closest, Chunk.SearchDistanceA, Chunk.Valid;
  }

  lemma LoneLineDoesNotScore(parent: seq<Fingerprint>, target: seq<Fingerprint>)
    requires |target| == |parent| == 1
    ensures ScoreOf(target[0], parent[0], 0) <= 0 ==> ScoresNothing(Chunk(0, 1, 1), parent, target, 0)
  {
    OneByOne();
    hide Similarity, ScoreOf, Chunk.Closest, Chunk.SearchDistanceA, Chunk.Valid;
    assert forall a :: Chunk(0, 1, 1).InA(a) ==> a == 0;
  }

  lemma HeavyLineDoesNotScore(x: Fingerprint)
    requires |x| == 2_200_001
    ensures Similarity(x, x) > 0 && ScoreOf(x, x, 0) <= 0
  {
    SelfSimilarity(x);
    ScoreOfProduct(x, x, 0, 2_200_001);
    hide Similarity, ScoreOf;
  }

  /** A line of 2.2 million bytes is left without a parent, although the only line of the parent is alike. */
  method HeavyLineRun(parent: array<Fingerprint>, target: Fingerprint) returns (answers: Option<array<int>>)
    requires parent.Length == 1 && parent[0] == Pairs(Repeated('A', 'B', 2 * HEAVY)) && target == Pairs(Repeated('a', 'b', 2 * HEAVY))
    modifies parent
    ensures Chunk(0, 1, 1).Valid() && Chunk(0, 1, 1).Fits() && Alike(Chunk(0, 1, 1), old(parent[..]), [target], 0, 0)
    ensures answers.Some? && answers.value.Length == 1 && answers.value[0] == -1
  {
    hide Pairs, Repeated, Similarity, ScoreOf, Scoring, ScoresNothing, Alike, Ordered, AlikeToNone, Light, Chunk.Valid, Chunk.Fits, Chunk.Closest, Chunk.Window;
    OneByOne();
    HeavyLine(parent[0], target);
    HeavyLineDoesNotScore(target);
    assert parent[..] == [target] && [target][0..1] == [target];
    LoneLineIsAlike(parent[..], [target]);
    LoneLineDoesNotScore(parent[..], [target]);
    answers := FuzzyFindMatchingLines(parent, [target], 0, 0, 1, 1);
  }
}
