/**
 Fingerprints of lines in blame.c: the byte pairs of a line, and how many two lines have in common.
 */
module Fingerprints {
  import opened Wrappers

  /** A fingerprint is the multiset of byte pairs of a line. */
  type Fingerprint = multiset<int>

  /** The byte at `i` in lower case; white space counts as zero, and is all there is at either end of the line. */
  function Code(line: string, i: int): (c: nat)
    ensures c < 0x100
  {
    if 0 <= i < |line| && !IsSpace(line[i]) then
      var c := (line[i] as nat) % 0x100;
      if 65 <= c <= 90 then c + 32 else c
    else 0
  }

  /** The byte at `i` with the one before it. */
  function Pair(line: string, i: int): nat {
    Code(line, i - 1) + 0x100 * Code(line, i)
  }

  /** The first `k` pairs, without those of white space alone. */
  function PairsTo(line: string, k: nat): Fingerprint {
    if k == 0 then multiset{}
    else PairsTo(line, k - 1) + if Pair(line, k - 1) == 0 then multiset{} else multiset{Pair(line, k - 1)}
  }

  function Pairs(line: string): Fingerprint {
    PairsTo(line, |line| + 1)
  }

  /** get_fingerprint */
  method GetFingerprint(line: string) returns (result: Fingerprint)
    ensures result == Pairs(line)
  {
    result := multiset{};
    var c0 := 0;
    for p := 0 to |line| + 1
      invariant c0 == Code(line, p - 1) && result == PairsTo(line, p)
    {
      var c1 := Code(line, p);
      var hash := c0 + 0x100 * c1;
      if hash != 0 {
        result := result + multiset{hash};
      }
      c0 := c1;
    }
  }

  /** A line has no more pairs than bytes and one, and as many when none is blank. */
  lemma {:induction false} PairsCount(line: string, k: nat)
    ensures |PairsTo(line, k)| <= k
    ensures (forall i | 0 <= i < k :: Pair(line, i) != 0) ==> |PairsTo(line, k)| == k
  {
    if k > 0 {
      PairsCount(line, k - 1);
    }
  }

  /** A pair tells its bytes. */
  lemma PairTellsBytes(x: string, i: int, y: string, j: int)
    requires Pair(x, i) == Pair(y, j)
    ensures Code(x, i - 1) == Code(y, j - 1) && Code(x, i) == Code(y, j)
  {
    hide Code;
  }

  lemma {:induction false} PairsAre(line: string, k: nat, p: int)
    requires p in PairsTo(line, k)
    ensures p != 0 && exists i :: 0 <= i < k && Pair(line, i) == p
  {
    hide Code, Pair;
    if Pair(line, k - 1) == 0 || p != Pair(line, k - 1) {
      PairsAre(line, k - 1, p);
    }
  }

  /** Case does not matter. */
  lemma {:induction false} SamePairs(x: string, y: string, k: nat)
    requires forall i :: Code(x, i) == Code(y, i)
    ensures PairsTo(x, k) == PairsTo(y, k)
  {
    hide Code;
    if k > 0 {
      SamePairs(x, y, k - 1);
      assert Pair(x, k - 1) == Pair(y, k - 1);
    }
  }

  /** The size of the intersection, repeated elements included. */
  function Similarity(x: Fingerprint, y: Fingerprint): nat {
    |x * y|
  }

  lemma SubsetSize(x: Fingerprint, y: Fingerprint)
    requires x <= y
    ensures |x| <= |y|
  {
    assert y == x + (y - x);
  }

  lemma SimilarityShrinks(x: Fingerprint, y: Fingerprint, z: Fingerprint)
    requires y <= z
    ensures Similarity(x, y) <= Similarity(x, z)
  {
    SubsetSize(x * y, x * z);
  }

  lemma SimilarityBound(x: Fingerprint, y: Fingerprint)
    ensures Similarity(x, y) <= |x|
  {
    SubsetSize(x * y, x);
  }
}
