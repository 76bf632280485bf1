/**
 Choosing the commit to test in bisect.c.  Commits are numbered so that parents come before
 children, as those of any acyclic history can be; nothing depends on the order otherwise.
 */
module Bisect {
  import opened Wrappers

  datatype History = History(parents: seq<seq<nat>>, uninteresting: set<nat>, treesame: set<nat>, firstParentOnly: bool) {
    ghost predicate Valid() {
      forall c, i | 0 <= c < |parents| && 0 <= i < |parents[c]| :: parents[c][i] < c
    }

    /** The parents that a walk follows. */
    function Walked(c: nat): seq<nat>
      requires c < |parents|
    {
      if firstParentOnly && |parents[c]| > 1 then parents[c][..1] else parents[c]
    }
  }

  // ---------- reachability ----------

  /** The interesting commits reachable from `c`, itself included, through interesting commits. */
  function Reach(h: History, c: nat): set<nat>
    requires h.Valid() && c < |h.parents|
    decreases c, 0
  {
    if c in h.uninteresting then {} else {c} + ReachFrom(h, c, |h.Walked(c)|)
  }

  /** What the first `k` parents of `c` reach. */
  function ReachFrom(h: History, c: nat, k: nat): set<nat>
    requires h.Valid() && c < |h.parents| && k <= |h.Walked(c)|
    decreases c, 0, k
  {
    if k == 0 then {} else ReachFrom(h, c, k - 1) + Reach(h, h.Walked(c)[k - 1])
  }

  /** Reachability told by paths: a commit, one of its parents, and so on, all interesting. */
  ghost predicate Path(h: History, path: seq<nat>)
    requires h.Valid()
  {
    && path != []
    && (forall i | 0 <= i < |path| :: path[i] < |h.parents| && path[i] !in h.uninteresting)
    && (forall i | 0 <= i < |path| - 1 :: path[i + 1] in h.Walked(path[i]))
  }

  lemma {:induction false} ReachFromHas(h: History, c: nat, k: nat, x: nat)
    requires h.Valid() && c < |h.parents| && k <= |h.Walked(c)|
    ensures x in ReachFrom(h, c, k) <==> exists i | 0 <= i < k :: x in Reach(h, h.Walked(c)[i])
  {
    if k > 0 {
      ReachFromHas(h, c, k - 1, x);
    }
  }

  lemma {:induction false} ReachBelow(h: History, c: nat, x: nat)
    requires h.Valid() && c < |h.parents| && x in Reach(h, c)
    ensures x <= c && x !in h.uninteresting
    decreases c
  {
    if x != c {
      ReachFromHas(h, c, |h.Walked(c)|, x);
      var i :| 0 <= i < |h.Walked(c)| && x in Reach(h, h.Walked(c)[i]);
      ReachBelow(h, h.Walked(c)[i], x);
    }
  }

  lemma {:induction false} PathReaches(h: History, path: seq<nat>)
    requires h.Valid() && Path(h, path)
    ensures path[|path| - 1] in Reach(h, path[0])
    decreases |path|
  {
    if |path| > 1 {
      var rest := path[1..];
      forall i | 0 <= i < |rest| - 1 ensures rest[i + 1] in h.Walked(rest[i]) {
        assert path[(i + 1) + 1] in h.Walked(path[i + 1]);
      }
      PathReaches(h, rest);
      var i :| 0 <= i < |h.Walked(path[0])| && h.Walked(path[0])[i] == path[1];
      ReachFromHas(h, path[0], |h.Walked(path[0])|, path[|path| - 1]);
    }
  }

  lemma {:induction false} ReachHasPath(h: History, c: nat, x: nat) returns (path: seq<nat>)
    requires h.Valid() && c < |h.parents| && x in Reach(h, c)
    ensures Path(h, path) && path[0] == c && path[|path| - 1] == x
    decreases c
  {
    if x == c {
      path := [c];
    } else {
      ReachFromHas(h, c, |h.Walked(c)|, x);
      var i :| 0 <= i < |h.Walked(c)| && x in Reach(h, h.Walked(c)[i]);
      var rest := ReachHasPath(h, h.Walked(c)[i], x);
      path := [c] + rest;
      assert forall i | 1 <= i < |path| :: path[i] == rest[i - 1];
    }
  }

  /** Every interesting parent of a member is a member. */
  ghost predicate Closed(h: History, s: set<nat>)
    requires h.Valid()
  {
    forall c, i | c in s && c < |h.parents| && 0 <= i < |h.Walked(c)| :: h.Walked(c)[i] in h.uninteresting || h.Walked(c)[i] in s
  }

  lemma {:induction false} ClosedHoldsReach(h: History, s: set<nat>, c: nat)
    requires h.Valid() && c < |h.parents| && Closed(h, s) && c in s
    ensures Reach(h, c) <= s
    decreases c
  {
    forall x | x in Reach(h, c) ensures x in s {
      if x != c {
        ReachFromHas(h, c, |h.Walked(c)|, x);
        var i :| 0 <= i < |h.Walked(c)| && x in Reach(h, h.Walked(c)[i]);
        var p := h.Walked(c)[i];
        assert p !in h.uninteresting;
        ClosedHoldsReach(h, s, p);
      }
    }
  }

  lemma {:induction false} ReachClosed(h: History, c: nat)
    requires h.Valid() && c < |h.parents|
    ensures Closed(h, Reach(h, c))
    decreases c
  {
    forall x | x in Reach(h, c) ensures x < |h.parents| {
      ReachBelow(h, c, x);
    }
    forall x, i | x in Reach(h, c) && 0 <= i < |h.Walked(x)| && h.Walked(x)[i] !in h.uninteresting
      ensures h.Walked(x)[i] in Reach(h, c)
    {
      ReachFromHas(h, c, |h.Walked(c)|, h.Walked(x)[i]);
      if x == c {
        assert h.Walked(c)[i] in Reach(h, h.Walked(c)[i]);
      } else {
        ReachFromHas(h, c, |h.Walked(c)|, x);
        var j :| 0 <= j < |h.Walked(c)| && x in Reach(h, h.Walked(c)[j]);
        ReachClosed(h, h.Walked(c)[j]);
      }
    }
  }

  function Abs(x: int): nat {
    if x < 0 then -x else x
  }

  // ---------- weights ----------

  ghost function Changing(h: History, s: set<nat>): set<nat> {
    set c | c in s && c !in h.treesame
  }

  /** How many tree-changing commits `c` reaches, itself included. */
  ghost function Weight(h: History, c: nat): nat
    requires h.Valid() && c < |h.parents|
  {
    |Changing(h, Reach(h, c))|
  }

  lemma ChangingAdd(h: History, s: set<nat>, c: nat)
    requires c !in s
    ensures |Changing(h, s + {c})| == |Changing(h, s)| + if c in h.treesame then 0 else 1
  {
    if c in h.treesame {
      assert Changing(h, s + {c}) == Changing(h, s);
    } else {
      assert Changing(h, s + {c}) == Changing(h, s) + {c};
    }
  }

  /** The number of interesting parents among the first `k` that are walked. */
  ghost function InterestingParents(h: History, c: nat, k: nat): nat
    requires c < |h.parents| && k <= |h.Walked(c)|
  {
    if k == 0 then 0 else InterestingParents(h, c, k - 1) + if h.Walked(c)[k - 1] in h.uninteresting then 0 else 1
  }

  ghost predicate IsMerge(h: History, c: nat)
    requires c < |h.parents|
  {
    InterestingParents(h, c, |h.Walked(c)|) > 1
  }

  /** The merges of interesting commits that leave the tree alone. */
  ghost function TreesameMerges(h: History, s: set<nat>): set<nat> {
    set c | c in s && c in h.treesame && c < |h.parents| && IsMerge(h, c)
  }

  lemma {:induction false} NoInterestingParent(h: History, c: nat, k: nat)
    requires h.Valid() && c < |h.parents| && k <= |h.Walked(c)| && InterestingParents(h, c, k) == 0
    ensures ReachFrom(h, c, k) == {}
  {
    if k > 0 {
      NoInterestingParent(h, c, k - 1);
    }
  }

  lemma {:induction false} OneInterestingParent(h: History, c: nat, k: nat, i: nat)
    requires h.Valid() && c < |h.parents| && k <= |h.Walked(c)| && InterestingParents(h, c, k) == 1
    requires i < k && h.Walked(c)[i] !in h.uninteresting
    ensures ReachFrom(h, c, k) == Reach(h, h.Walked(c)[i])
  {
    if i == k - 1 {
      NoInterestingParent(h, c, k - 1);
    } else {
      SomeInteresting(h, c, k - 1, i);
      OneInterestingParent(h, c, k - 1, i);
    }
  }

  lemma {:induction false} SomeInteresting(h: History, c: nat, k: nat, i: nat)
    requires c < |h.parents| && i < k <= |h.Walked(c)| && h.Walked(c)[i] !in h.uninteresting
    ensures InterestingParents(h, c, k) >= 1
  {
    if i < k - 1 {
      SomeInteresting(h, c, k - 1, i);
    }
  }

  /** The cheap rule: with one interesting parent, reach what it reaches and yourself. */
  lemma WeightFromParent(h: History, c: nat, i: nat)
    requires h.Valid() && c < |h.parents| && c !in h.uninteresting
    requires InterestingParents(h, c, |h.Walked(c)|) == 1 && i < |h.Walked(c)| && h.Walked(c)[i] !in h.uninteresting
    ensures Weight(h, c) == Weight(h, h.Walked(c)[i]) + if c in h.treesame then 0 else 1
  {
    var p := h.Walked(c)[i];
    OneInterestingParent(h, c, |h.Walked(c)|, i);
    if c in Reach(h, p) {
      ReachBelow(h, p, c);
      assert false;
    }
    assert Reach(h, c) == Reach(h, p) + {c};
    ChangingAdd(h, Reach(h, p), c);
  }

  lemma WeightOfRoot(h: History, c: nat)
    requires h.Valid() && c < |h.parents| && c !in h.uninteresting
    requires InterestingParents(h, c, |h.Walked(c)|) == 0
    ensures Weight(h, c) == if c in h.treesame then 0 else 1
  {
    NoInterestingParent(h, c, |h.Walked(c)|);
    assert Reach(h, c) == {} + {c};
    ChangingAdd(h, {}, c);
  }

  /** How far from the nearer end of the range a weight lies. */
  function Distance(w: int, nr: int): int {
    if nr - w < w then nr - w else w
  }

  ghost function Members(list: seq<nat>): set<nat> {
    set c | c in list
  }

  // ---------- counting by marking ----------

  ghost function Marked(counted: seq<bool>): (s: set<nat>)
    ensures forall c :: c in s <==> 0 <= c < |counted| && counted[c]
  {
    set c: nat | c < |counted| && counted[c]
  }

  /**
   The COUNTED flags during a walk: `grey` commits are marked but not finished, and everything
   else that is marked is finished, with all it reaches.
   */
  ghost predicate Walking(h: History, marked: set<nat>, grey: set<nat>, c: nat)
    requires h.Valid() && c < |h.parents|
  {
    grey <= marked && Closed(h, marked - grey) && Reach(h, c) !! grey
  }

  lemma ClosedUnion(h: History, s: set<nat>, t: set<nat>)
    requires h.Valid() && Closed(h, s) && Closed(h, t)
    ensures Closed(h, s + t)
  {
  }

  /** A commit that is marked already adds nothing. */
  lemma MarkedAddsNothing(h: History, marked: set<nat>, grey: set<nat>, c: nat)
    requires h.Valid() && c < |h.parents| && Walking(h, marked, grey, c)
    requires c in marked || c in h.uninteresting
    ensures marked + Reach(h, c) == marked
  {
    if c !in h.uninteresting {
      assert c in Reach(h, c);
      ClosedHoldsReach(h, marked - grey, c);
    }
  }

  /** After `c` and what its first `k` parents reach are marked, the walk may go on to the other parents. */
  lemma WalkingBelow(h: History, marked: set<nat>, grey: set<nat>, c: nat, p: nat)
    requires h.Valid() && c < |h.parents| && Walking(h, marked, grey, c) && c !in h.uninteresting && c !in marked
    requires p in h.Walked(c)
    ensures Walking(h, marked + {c}, grey + {c}, p) && Reach(h, p) <= Reach(h, c)
  {
    var i :| 0 <= i < |h.Walked(c)| && h.Walked(c)[i] == p;
    forall x | x in Reach(h, p) ensures x in Reach(h, c) && x != c {
      ReachFromHas(h, c, |h.Walked(c)|, x);
      ReachBelow(h, p, x);
    }
    assert (marked + {c}) - (grey + {c}) == marked - grey;
  }

  lemma WalkingOn(h: History, marked: set<nat>, grey: set<nat>, c: nat, p: nat)
    requires h.Valid() && c < |h.parents| && p < |h.parents|
    requires Walking(h, marked, grey, c) && Walking(h, marked, grey, p)
    ensures Walking(h, marked + Reach(h, p), grey, c)
  {
    ReachClosed(h, p);
    ClosedUnion(h, marked - grey, Reach(h, p));
    assert (marked + Reach(h, p)) - grey == (marked - grey) + Reach(h, p);
  }

  lemma ChangingUnion(h: History, s: set<nat>, t: set<nat>)
    requires s <= t
    ensures |Changing(h, t)| == |Changing(h, s)| + |Changing(h, t - s)|
  {
    assert Changing(h, t) == Changing(h, s) + Changing(h, t - s);
  }

  lemma NothingChanging(h: History)
    ensures Changing(h, {}) == {}
  {
  }

  lemma MarkedIs(counted: seq<bool>, c: nat)
    requires c < |counted|
    ensures c in Marked(counted) <==> counted[c]
  {
  }

  lemma ReachIs(h: History, c: nat)
    requires h.Valid() && c < |h.parents| && c !in h.uninteresting
    ensures Reach(h, c) == {c} + ReachFrom(h, c, |h.Walked(c)|)
  {
  }

  lemma ReachOfRoot(h: History, c: nat)
    requires h.Valid() && c < |h.parents| && c !in h.uninteresting && h.Walked(c) == []
    ensures Reach(h, c) == {c}
  {
  }

  lemma ReachFromOne(h: History, c: nat)
    requires h.Valid() && c < |h.parents| && h.Walked(c) != []
    ensures ReachFrom(h, c, 1) == Reach(h, h.Walked(c)[0])
  {
    assert ReachFrom(h, c, 0) == {};
  }

  lemma ReachFromNext(h: History, c: nat, k: nat)
    requires h.Valid() && c < |h.parents| && k < |h.Walked(c)|
    ensures ReachFrom(h, c, k + 1) == ReachFrom(h, c, k) + Reach(h, h.Walked(c)[k])
  {
  }

  lemma NothingMarked(h: History, counted: seq<bool>, c: nat)
    requires h.Valid() && c < |h.parents| && forall i | 0 <= i < |counted| :: !counted[i]
    ensures Marked(counted) == {} && Walking(h, Marked(counted), {}, c)
  {
    assert Marked(counted) == {};
  }

  // ---------- the search ----------

  class Bisection {
    const h: History
    const counted: array<bool>
    const weight: array<int>

    ghost predicate Valid() {
      h.Valid() && counted.Length == weight.Length == |h.parents|
    }

    constructor (h: History)
      requires h.Valid()
      ensures Valid() && this.h == h && fresh(counted) && fresh(weight)
      ensures forall c | 0 <= c < counted.Length :: !counted[c]
      ensures forall c | 0 <= c < weight.Length :: weight[c] == 0
    {
      this.h := h;
      counted := new bool[|h.parents|](_ => false);
      weight := new int[|h.parents|](_ => 0);
    }

    /**
     count_distance: marks everything reachable from `entry` and counts what was not marked
     before.  First parents are followed by the loop, the others by recursion.
     */
    method CountDistance(entry: nat, ghost grey: set<nat>) returns (nr: nat)
      requires Valid() && !h.firstParentOnly && entry < |h.parents|
      requires Walking(h, Marked(counted[..]), grey, entry)
      modifies counted
      ensures Marked(counted[..]) == old(Marked(counted[..])) + Reach(h, entry)
      ensures nr == |Changing(h, Marked(counted[..]) - old(Marked(counted[..])))|
      decreases entry, 1, 0
    {
      hide Walking, Reach, Changing, Marked;
      nr := 0;
      ghost var before := Marked(counted[..]);
      ghost var chain := grey;
      var commit: nat, more: bool := entry, true;
      assert before - before == {} && Changing(h, {}) == {} by { NothingChanging(h); }
      while more
        invariant commit <= entry && before <= Marked(counted[..])
        invariant more ==> Walking(h, Marked(counted[..]), chain, commit)
        invariant before + Reach(h, entry) == Marked(counted[..]) + if more then Reach(h, commit) else {}
        invariant nr == |Changing(h, Marked(counted[..]) - before)|
        decreases if more then commit + 1 else 0
      {
        ghost var now := Marked(counted[..]);
        MarkedIs(counted[..], commit);
        if commit in h.uninteresting || counted[commit] {
          MarkedAddsNothing(h, now, chain, commit);
          assert now + {} == now;
          more := false;
        } else {
          var c := Mark(commit, before);
          nr := nr + c;
          var parents := h.parents[commit];
          if parents == [] {
            ReachOfRoot(h, commit);
            more := false;
          } else {
            var others := CountOthers(commit, now, chain, before);
            nr := nr + others;
            chain := chain + {commit};
            commit := parents[0];
          }
        }
      }
    }

    /** The inner loop of count_distance: all parents of `commit` but the first. */
    method CountOthers(commit: nat, ghost now: set<nat>, ghost grey: set<nat>, ghost before: set<nat>) returns (nr: nat)
      requires Valid() && !h.firstParentOnly && commit < |h.parents| && h.parents[commit] != []
      requires before <= now && commit !in now && commit !in h.uninteresting && Walking(h, now, grey, commit)
      requires Marked(counted[..]) == now + {commit}
      modifies counted
      ensures before <= Marked(counted[..])
      ensures Walking(h, Marked(counted[..]), grey + {commit}, h.parents[commit][0])
      ensures Marked(counted[..]) + Reach(h, h.parents[commit][0]) == now + Reach(h, commit)
      ensures |Changing(h, Marked(counted[..]) - before)| == |Changing(h, (now + {commit}) - before)| + nr
      decreases commit, 0, 0
    {
      hide Walking, Reach, Changing, Marked;
      nr := 0;
      var parents := h.parents[commit];
      forall p | p in parents ensures Walking(h, now + {commit}, grey + {commit}, p) {
        WalkingBelow(h, now, grey, commit, p);
      }
      ReachFromOne(h, commit);
      for k := 1 to |parents|
        invariant before <= Marked(counted[..])
        invariant forall p | p in parents :: Walking(h, Marked(counted[..]), grey + {commit}, p)
        invariant Marked(counted[..]) + Reach(h, parents[0]) == now + {commit} + ReachFrom(h, commit, k)
        invariant |Changing(h, Marked(counted[..]) - before)| == |Changing(h, (now + {commit}) - before)| + nr
      {
        ghost var marked := Marked(counted[..]);
        var n := CountDistance(parents[k], grey + {commit});
        forall p | p in parents ensures Walking(h, Marked(counted[..]), grey + {commit}, p) {
          WalkingOn(h, marked, grey + {commit}, p, parents[k]);
        }
        ReachFromNext(h, commit, k);
        ChangingUnion(h, marked - before, Marked(counted[..]) - before);
        assert (Marked(counted[..]) - before) - (marked - before) == Marked(counted[..]) - marked;
        nr := nr + n;
      }
      ReachIs(h, commit);
      assert now + {commit} + ReachFrom(h, commit, |parents|) == now + ({commit} + ReachFrom(h, commit, |parents|));
    }

    /** Set the COUNTED flag of an unmarked commit; the result is 1 when it changes the tree. */
    method Mark(commit: nat, ghost before: set<nat>) returns (c: nat)
      requires Valid() && commit < |h.parents| && commit !in Marked(counted[..]) && before <= Marked(counted[..])
      modifies counted
      ensures Marked(counted[..]) == old(Marked(counted[..])) + {commit}
      ensures |Changing(h, Marked(counted[..]) - before)| == |Changing(h, old(Marked(counted[..])) - before)| + c
    {
      ghost var now := Marked(counted[..]);
      c := if commit in h.treesame then 0 else 1;
      counted[commit] := true;
      assert Marked(counted[..]) == now + {commit};
      ChangingAdd(h, now - before, commit);
      assert (now + {commit}) - before == (now - before) + {commit};
    }

    // ---------- the list ----------

    /** The list holds every interesting commit that its members reach, each once. */
    ghost predicate Listed(list: seq<nat>)
      requires Valid()
    {
      && (forall c | c in list :: c < |h.parents| && c !in h.uninteresting)
      && (forall i, j | 0 <= i < j < |list| :: list[i] != list[j])
      && Closed(h, Members(list))
    }

    /** What the code counts when it learns a weight: tree-changing commits, and every merge. */
    ghost predicate Counts(c: nat) {
      c !in h.treesame || (c < |h.parents| && IsMerge(h, c))
    }

    /** What may be in the weight slot of a commit: its weight, or the mark of a linear commit or of a merge. */
    ghost predicate SlotOk(c: nat, w: int)
      requires Valid() && c < |h.parents|
    {
      || w == Weight(h, c)
      || (w == -1 && InterestingParents(h, c, |h.Walked(c)|) == 1)
      || (w == -2 && InterestingParents(h, c, |h.Walked(c)|) > 1)
    }

    ghost predicate SlotsOk(list: seq<nat>, w: seq<int>)
      requires Valid() && Listed(list) && |w| == |h.parents|
    {
      forall c | c in list :: SlotOk(c, w[c])
    }

    /** The commits counted whose weight is known, and all commits whose weight is not. */
    ghost function Known(s: set<nat>, w: seq<int>): set<nat> {
      set c | c in s && c < |w| && w[c] >= 0 && Counts(c)
    }

    static ghost function Unknown(s: set<nat>, w: seq<int>): set<nat> {
      set c | c in s && c < |w| && w[c] < 0
    }

    /** One more slot gets a weight. */
    lemma Learn(s: set<nat>, w: seq<int>, c: nat, v: nat)
      requires c in s && c < |w| && w[c] < 0
      ensures |Known(s, w[c := v])| == |Known(s, w)| + if Counts(c) then 1 else 0
      ensures Unknown(s, w[c := v]) == Unknown(s, w) - {c}
    {
      if Counts(c) {
        assert Known(s, w[c := v]) == Known(s, w) + {c};
      } else {
        assert Known(s, w[c := v]) == Known(s, w);
      }
    }

    /** One more commit is looked at. */
    lemma KnownMore(s: set<nat>, w: seq<int>, c: nat, v: int)
      requires c !in s && c < |w|
      ensures |Known(s + {c}, w[c := v])| == |Known(s, w)| + if v >= 0 && Counts(c) then 1 else 0
    {
      if v >= 0 && Counts(c) {
        assert Known(s + {c}, w[c := v]) == Known(s, w) + {c};
      } else {
        assert Known(s + {c}, w[c := v]) == Known(s, w);
      }
    }

    /** count_interesting_parents. */
    method CountInterestingParents(c: nat) returns (count: nat)
      requires Valid() && c < |h.parents|
      ensures count == InterestingParents(h, c, |h.Walked(c)|)
    {
      count := 0;
      var k := 0;
      while k < |h.parents[c]|
        invariant 0 <= k <= |h.Walked(c)|
        invariant count == InterestingParents(h, c, k)
        invariant h.firstParentOnly ==> k == 0
      {
        if h.parents[c][k] !in h.uninteresting {
          count := count + 1;
        }
        k := k + 1;
        if h.firstParentOnly {
          break;
        }
      }
    }

    /** approx_halfway. */
    predicate ApproxHalfway(c: nat, w: int, nr: nat) {
      if c in h.treesame then false
      else
        var diff := 2 * w - nr;
        -1 <= diff <= 1 || Abs(diff) < nr / 1024
    }

    /** The weight of a root, or the mark for one interesting parent or for more. */
    ghost function FirstMark(c: nat): int
      requires Valid() && c < |h.parents|
    {
      var n := InterestingParents(h, c, |h.Walked(c)|);
      if n > 1 then -2 else if n == 1 then -1 else if c in h.treesame then 0 else 1
    }

    /** The first loop of do_find_bisection: weight the roots and mark the others. */
    method InitWeights(list: seq<nat>) returns (known: nat)
      requires Valid() && Listed(list) && forall c | c in list :: weight[c] == 0
      modifies weight
      ensures SlotsOk(list, weight[..]) && known == |Known(Members(list), weight[..])|
      ensures forall c | c in list :: weight[c] == FirstMark(c)
    {
      hide Known, Weight;
      known := 0;
      ghost var seen: set<nat> := {};
      KnownNothing(weight[..]);
      for k := 0 to |list|
        invariant forall i | 0 <= i < k :: list[i] in seen
        invariant forall i | k <= i < |list| :: list[i] in list && list[i] !in seen && weight[list[i]] == 0
        invariant forall c | c in seen :: c in list && SlotOk(c, weight[c]) && weight[c] == FirstMark(c)
        invariant known == |Known(seen, weight[..])|
      {
        var c := list[k];
        assert c in list;
        ghost var w := weight[..];
        var parents := CountInterestingParents(c);
        match parents {
          case 0 =>
            WeightOfRoot(h, c);
            if c !in h.treesame {
              weight[c] := 1;
              known := known + 1;
            }
          case 1 => weight[c] := -1;
          case _ => weight[c] := -2;
        }
        assert weight[..] == w[c := weight[c]];
        KnownMore(seen, w, c, weight[c]);
        seen := seen + {c};
      }
      assert seen == Members(list);
    }

    lemma KnownNothing(w: seq<int>)
      ensures Known({}, w) == {}
    {
    }

    /** clear_distance. */
    method ClearDistance(list: seq<nat>)
      requires Valid() && Listed(list) && forall c | 0 <= c < counted.Length && counted[c] :: c in list
      modifies counted
      ensures forall c | 0 <= c < counted.Length :: !counted[c]
    {
      for k := 0 to |list|
        invariant forall c | 0 <= c < counted.Length && counted[c] :: c in list && forall i | 0 <= i < k :: list[i] != c
      {
        assert list[k] in list;
        counted[list[k]] := false;
      }
    }

    /** The weight of one merge, by marking and counting; the marks are cleared again. */
    method CountMerge(list: seq<nat>, c: nat) returns (w: nat)
      requires Valid() && Listed(list) && c in list && !h.firstParentOnly
      requires forall c | 0 <= c < counted.Length :: !counted[c]
      modifies counted
      ensures w == Weight(h, c)
      ensures forall c | 0 <= c < counted.Length :: !counted[c]
    {
      hide Reach, Changing, Closed;
      NothingMarked(h, counted[..], c);
      w := CountDistance(c, {});
      assert Marked(counted[..]) == {} + Reach(h, c) == Reach(h, c);
      assert Marked(counted[..]) - {} == Reach(h, c);
      ClosedHoldsReach(h, Members(list), c);
      forall c | 0 <= c < counted.Length && counted[c] ensures c in list {
        assert c in Marked(counted[..]);
      }
      ClearDistance(list);
    }

    /** The state between two assignments of weights. */
    ghost predicate Progress(list: seq<nat>, known: nat)
      requires Valid() && Listed(list)
      reads counted, weight
    {
      && SlotsOk(list, weight[..]) && known == |Known(Members(list), weight[..])|
      && forall c | 0 <= c < counted.Length :: !counted[c]
    }

    /** A commit that approx_halfway accepts, with its true weight. */
    ghost predicate Halfway(list: seq<nat>, nr: nat, c: nat)
      requires Valid() && Listed(list)
      reads weight
    {
      c in list && weight[c] == Weight(h, c) && ApproxHalfway(c, weight[c], nr)
    }

    lemma LearnOk(list: seq<nat>, w: seq<int>, c: nat, v: nat)
      requires Valid() && Listed(list) && |w| == |h.parents| && SlotsOk(list, w) && c in list && w[c] < 0 && v == Weight(h, c)
      ensures SlotsOk(list, w[c := v])
      ensures |Known(Members(list), w[c := v])| == |Known(Members(list), w)| + if Counts(c) then 1 else 0
      ensures Unknown(Members(list), w[c := v]) == Unknown(Members(list), w) - {c}
    {
      hide Known, Unknown, Weight, Counts;
      Learn(Members(list), w, c, v);
    }

    /** The second loop of do_find_bisection: count what each merge reaches. */
    method WeighMerges(list: seq<nat>, nr: nat, known0: nat) returns (found: Option<nat>, known: nat)
      requires Valid() && Listed(list) && Progress(list, known0)
      modifies weight, counted
      ensures Progress(list, known)
      ensures forall c | 0 <= c < weight.Length && old(weight[c]) != -2 :: weight[c] == old(weight[c])
      ensures found.Some? ==> Halfway(list, nr, found.value)
      ensures found.None? ==> forall c | c in list :: weight[c] != -2
    {
      hide Known, Weight;
      known := known0;
      for k := 0 to |list|
        invariant Progress(list, known)
        invariant forall c | 0 <= c < weight.Length && old(weight[c]) != -2 :: weight[c] == old(weight[c])
        invariant forall i | 0 <= i < k :: list[i] in list && weight[list[i]] != -2
      {
        var c := list[k];
        assert c in list && SlotOk(c, weight[..][c]);
        if weight[c] == -2 {
          WalkedOnce(c);
          ghost var w := weight[..];
          var v := CountMerge(list, c);
          LearnOk(list, w, c, v);
          weight[c] := v;
          assert weight[..] == w[c := v];
          known := known + 1;
          if ApproxHalfway(c, weight[c], nr) {
            return Some(c), known;
          }
        }
      }
      found := None;
    }

    /** With first parents only, no commit has two parents to follow. */
    lemma WalkedOnce(c: nat)
      requires Valid() && c < |h.parents| && InterestingParents(h, c, |h.Walked(c)|) > 1
      ensures !h.firstParentOnly
    {
      if h.firstParentOnly {
        assert InterestingParents(h, c, 0) == 0;
      }
    }

    /** A parent whose weight is known, as the inner search of the last loop finds it. */
    method KnownParent(list: seq<nat>, c: nat) returns (q: Option<nat>)
      requires Valid() && Listed(list) && c in list
      ensures q.Some? ==> q.value < |h.Walked(c)| && h.Walked(c)[q.value] !in h.uninteresting && weight[h.Walked(c)[q.value]] >= 0
      ensures q.None? ==> forall i | 0 <= i < |h.Walked(c)| && h.Walked(c)[i] !in h.uninteresting :: weight[h.Walked(c)[i]] < 0
    {
      var k := 0;
      while k < |h.parents[c]|
        invariant 0 <= k <= |h.Walked(c)| && (h.firstParentOnly ==> k == 0)
        invariant forall i | 0 <= i < k && h.Walked(c)[i] !in h.uninteresting :: weight[h.Walked(c)[i]] < 0
      {
        if h.parents[c][k] !in h.uninteresting && 0 <= weight[h.parents[c][k]] {
          return Some(k);
        }
        k := k + 1;
        if h.firstParentOnly {
          break;
        }
      }
      q := None;
    }

    /** The smallest commit without a weight: its parents all have one. */
    lemma SmallestUnknown(list: seq<nat>, w: seq<int>, m: nat, i: nat)
      requires Valid() && Listed(list) && |w| == |h.parents| && m in Unknown(Members(list), w)
      requires forall c | c in Unknown(Members(list), w) :: m <= c
      requires i < |h.Walked(m)| && h.Walked(m)[i] !in h.uninteresting
      ensures h.Walked(m)[i] in list && w[h.Walked(m)[i]] >= 0
    {
      assert m in Members(list);
      assert h.Walked(m)[i] in Members(list);
      assert h.Walked(m)[i] == h.parents[m][i] < m;
      UnknownIs(list, w, h.Walked(m)[i]);
    }

    lemma {:induction false} HasInterestingParent(c: nat, k: nat) returns (i: nat)
      requires c < |h.parents| && k <= |h.Walked(c)| && InterestingParents(h, c, k) > 0
      ensures i < k && h.Walked(c)[i] !in h.uninteresting
    {
      if h.Walked(c)[k - 1] !in h.uninteresting {
        i := k - 1;
      } else {
        i := HasInterestingParent(c, k - 1);
      }
    }

    /** A commit that every pass of the filling loop makes known, because its parents are. */
    lemma NextKnown(list: seq<nat>, w: seq<int>) returns (m: nat)
      requires Valid() && Listed(list) && |w| == |h.parents| && SlotsOk(list, w) && (forall c | c in list :: w[c] != -2)
      requires Unknown(Members(list), w) != {}
      ensures m in list && w[m] < 0
      ensures exists i | 0 <= i < |h.Walked(m)| :: h.Walked(m)[i] !in h.uninteresting && h.Walked(m)[i] in list && w[h.Walked(m)[i]] >= 0
    {
      m := Smallest(Unknown(Members(list), w));
      assert SlotOk(m, w[m]);
      var i := HasInterestingParent(m, |h.Walked(m)|);
      SmallestUnknown(list, w, m, i);
    }

    static lemma {:induction false} Smallest(s: set<nat>) returns (m: nat)
      requires s != {}
      ensures m in s && forall c | c in s :: m <= c
    {
      var x :| x in s;
      if s == {x} {
        m := x;
      } else {
        assert s - {x} != {};
        m := Smallest(s - {x});
        assert forall c | c in s :: c == x || c in s - {x};
        if x < m {
          m := x;
        }
      }
    }

    /** One pass of the last loop of do_find_bisection: fill in what can be told from a parent. */
    method FillPass(list: seq<nat>, nr: nat, known0: nat) returns (found: Option<nat>, known: nat)
      requires Valid() && Listed(list) && Progress(list, known0) && forall c | c in list :: weight[c] != -2
      requires Unknown(Members(list), weight[..]) != {}
      modifies weight
      ensures Progress(list, known) && forall c | c in list :: weight[c] != -2
      ensures found.Some? ==> Halfway(list, nr, found.value)
      ensures found.None? ==> Unknown(Members(list), weight[..]) < old(Unknown(Members(list), weight[..]))
    {
      hide Known, Weight, Unknown, Counts, Closed;
      known := known0;
      ghost var m := NextKnown(list, weight[..]);
      ghost var u := Unknown(Members(list), weight[..]);
      UnknownIs(list, weight[..], m);
      ghost var i :| 0 <= i < |h.Walked(m)| && h.Walked(m)[i] !in h.uninteresting && h.Walked(m)[i] in list && weight[h.Walked(m)[i]] >= 0;
      for k := 0 to |list|
        invariant Progress(list, known) && forall c | c in list :: weight[c] != -2
        invariant Unknown(Members(list), weight[..]) <= u
        invariant weight[h.Walked(m)[i]] >= 0
        invariant m in list[..k] ==> weight[m] >= 0
      {
        var c := list[k];
        assert c in list && SlotOk(c, weight[..][c]);
        assert list[..k + 1] == list[..k] + [c];
        if 0 > weight[c] {
          var q := KnownParent(list, c);
          if q.Some? {
            ghost var w := weight[..];
            var v := FillOne(list, c, q.value);
            LearnOk(list, w, c, v);
            weight[c] := v;
            assert weight[..] == w[c := v];
            if c !in h.treesame {
              known := known + 1;
            }
            if ApproxHalfway(c, weight[c], nr) {
              return Some(c), known;
            }
          }
        }
      }
      found := None;
      assert list[..|list|] == list;
      UnknownIs(list, weight[..], m);
    }

    lemma UnknownIs(list: seq<nat>, w: seq<int>, c: nat)
      requires c in list && c < |w|
      ensures c in Unknown(Members(list), w) <==> w[c] < 0
    {
    }

    /** The weight of a commit with one interesting parent, from that parent's. */
    method FillOne(list: seq<nat>, c: nat, q: nat) returns (v: nat)
      requires Valid() && Listed(list) && SlotsOk(list, weight[..]) && c in list && weight[c] < 0 && weight[c] != -2
      requires q < |h.Walked(c)| && h.Walked(c)[q] !in h.uninteresting && weight[h.Walked(c)[q]] >= 0
      ensures v == Weight(h, c)
      ensures Counts(c) <==> c !in h.treesame
    {
      hide Weight;
      var p := h.parents[c][q];
      assert c in Members(list);
      assert h.Walked(c)[q] == p && p in Members(list);
      assert SlotOk(c, weight[..][c]) && SlotOk(p, weight[..][p]);
      WeightFromParent(h, c, q);
      v := if c !in h.treesame then weight[p] + 1 else weight[p];
    }

    // ---------- the choice ----------

    /** No tree-changing commit before entry `k` is as good, if its weight is known. */
    ghost predicate FirstOf(list: seq<nat>, k: nat, nr: nat)
      requires Valid() && Listed(list) && k < |list|
      reads weight
    {
      forall i | 0 <= i < k && list[i] in list && list[i] !in h.treesame && weight[list[i]] >= 0 ::
        list[k] in list && Distance(weight[list[i]], nr) < Distance(weight[list[k]], nr)
    }

    /** best_bisection: the first tree-changing commit of the greatest distance, or the head of the list. */
    method BestBisection(list: seq<nat>, nr: nat) returns (best: Option<nat>)
      requires Valid() && Listed(list)
      requires forall c | c in list && c !in h.treesame :: -1 <= weight[c] <= nr
      ensures best.None? <==> list == []
      ensures best.Some? ==> best.value in list
      ensures forall c | c in list && c !in h.treesame && weight[c] >= 0 ::
        && best.value !in h.treesame && weight[best.value] >= 0
        && Distance(weight[c], nr) <= Distance(weight[best.value], nr)
      ensures best.Some? ==> exists k | 0 <= k < |list| :: list[k] == best.value && FirstOf(list, k, nr)
    {
      ghost var at := 0;
      best := if list == [] then None else Some(list[0]);
      var distance := -1;
      for k := 0 to |list|
        invariant best.None? <==> list == []
        invariant best.Some? ==> best.value in list
        invariant list != [] ==> 0 <= at < |list| && list[at] == best.value && (distance >= 0 ==> FirstOf(list, at, nr))
        invariant distance < 0 ==> at == 0
        invariant distance >= 0 ==> best.Some? && best.value !in h.treesame && distance == Distance(weight[best.value], nr)
        invariant distance >= -1 && forall i | 0 <= i < k && list[i] in list && list[i] !in h.treesame && weight[list[i]] >= 0 ::
          distance >= 0 && Distance(weight[list[i]], nr) <= distance
      {
        var c := list[k];
        assert c in list;
        if c !in h.treesame {
          var d := weight[c];
          if nr - d < d {
            d := nr - d;
          }
          if d > distance {
            best, distance, at := Some(c), d, k;
          }
        }
      }
    }

    /** A commit of the list that may be tested: one of the best but for those missed, or one near enough to the middle. */
    ghost predicate GoodChoice(list: seq<nat>, nr: nat, missed: set<nat>, c: nat)
      requires Valid() && Listed(list)
    {
      && c in list && c !in h.treesame && c !in missed
      && (NearMiddle(Weight(h, c), nr) ||
          forall d | d in list && d !in h.treesame && d !in missed :: Distance(Weight(h, d), nr) <= Distance(Weight(h, c), nr))
    }

    /** What approx_halfway accepts is such a choice. */
    lemma HalfwayIsGood(list: seq<nat>, nr: nat, c: nat)
      requires Valid() && Listed(list) && Halfway(list, nr, c)
      ensures GoodChoice(list, nr, {}, c)
    {
      hide Weight;
    }

    lemma WeightBound(list: seq<nat>, c: nat)
      requires Valid() && Listed(list) && c in list
      ensures Weight(h, c) <= |Changing(h, Members(list))|
    {
      ClosedHoldsReach(h, Members(list), c);
      ChangingUnion(h, Reach(h, c), Members(list));
    }

    /** The tree-changing commits without a weight. */
    ghost function Missed(list: seq<nat>, w: seq<int>): set<nat> {
      Changing(h, Members(list)) * Unknown(Members(list), w)
    }

    /** When as many weights are known as there are tree-changing commits, no more of them are missed than TREESAME merges were counted. */
    lemma FewMissed(list: seq<nat>, w: seq<int>)
      requires Valid() && Listed(list) && |w| == |h.parents|
      ensures |Known(Members(list), w)| >= |Changing(h, Members(list))| ==>
        |Missed(list, w)| <= |TreesameMerges(h, Members(list))|
      ensures |Known(Members(list), w)| < |Changing(h, Members(list))| ==> Unknown(Members(list), w) != {}
    {
      hide InterestingParents;
      var known, changing, merges := Known(Members(list), w), Changing(h, Members(list)), TreesameMerges(h, Members(list));
      assert changing !! merges && known <= changing + merges && Missed(list, w) <= (changing + merges) - known;
      assert changing <= known + Unknown(Members(list), w);
      Sizes(known, changing, merges, Missed(list, w));
      if Unknown(Members(list), w) == {} {
        SubsetSize(changing, known);
      }
    }

    static lemma Sizes(known: set<nat>, changing: set<nat>, merges: set<nat>, missed: set<nat>)
      requires changing !! merges && known <= changing + merges && missed <= (changing + merges) - known
      ensures |missed| + |known| <= |changing| + |merges|
    {
      var rest := (changing + merges) - known;
      assert known + rest == changing + merges;
      SubsetSize(missed, rest);
    }

    static lemma SubsetSize(s: set<nat>, t: set<nat>)
      requires s <= t
      ensures |s| <= |t| && (|s| == |t| ==> s == t) && (|s| < |t| ==> exists c :: c in t && c !in s)
    {
      assert t == s + (t - s);
    }

    /** do_find_bisection without FIND_BISECTION_ALL: for every TREESAME merge, one commit may be missed. */
    method DoFindBisection(list: seq<nat>, nr: nat) returns (best: Option<nat>, ghost missed: set<nat>)
      requires Valid() && Listed(list) && nr == |Changing(h, Members(list))|
      requires forall c | c in list :: weight[c] == 0
      requires forall c | 0 <= c < counted.Length :: !counted[c]
      modifies weight, counted
      ensures best.None? <==> list == []
      ensures best.Some? ==> best.value in list
      ensures missed <= Changing(h, Members(list)) && |missed| <= |TreesameMerges(h, Members(list))|
      ensures missed != Changing(h, Members(list)) ==>
        GoodChoice(list, nr, missed, best.value) && weight[best.value] == Weight(h, best.value)
    {
      hide Known, Weight, Unknown, Changing, TreesameMerges;
      missed := {};
      var known: nat := InitWeights(list);
      best, known := WeighMerges(list, nr, known);
      if best.Some? {
        HalfwayIsGood(list, nr, best.value);
        return;
      }
      while known < nr
        invariant Progress(list, known) && forall c | c in list :: weight[c] != -2
        decreases Unknown(Members(list), weight[..])
      {
        FewMissed(list, weight[..]);
        best, known := FillPass(list, nr, known);
        if best.Some? {
          HalfwayIsGood(list, nr, best.value);
          return;
        }
      }
      FewMissed(list, weight[..]);
      missed := Missed(list, weight[..]);
      forall c | c in list && c !in h.treesame
        ensures -1 <= weight[c] <= nr && (c in missed <==> weight[c] < 0) && (c !in missed ==> weight[c] == Weight(h, c))
      {
        assert SlotOk(c, weight[..][c]);
        UnknownIs(list, weight[..], c);
        ChangingIs(list, c);
        WeightBound(list, c);
      }
      best := BestBisection(list, nr);
      if missed != Changing(h, Members(list)) {
        NotAllMissed(list, missed);
      }
    }

    lemma ChangingIs(list: seq<nat>, c: nat)
      requires c in list
      ensures c in Changing(h, Members(list)) <==> c !in h.treesame
    {
    }

    lemma NotAllMissed(list: seq<nat>, missed: set<nat>)
      requires missed < Changing(h, Members(list))
      ensures exists c :: c in list && c !in h.treesame && c !in missed
    {
      var c :| c in Changing(h, Members(list)) && c !in missed;
    }
  }

  // ---------- find_bisection ----------

  /** The interesting commits of a list, each as often as it occurs. */
  ghost function Interesting(h: History, commits: seq<nat>): set<nat> {
    set c | c in commits && c !in h.uninteresting
  }

  /** The interesting part of the list is complete, and no commit occurs twice. */
  ghost predicate Complete(h: History, commits: seq<nat>)
    requires h.Valid()
  {
    && (forall c | c in commits :: c < |h.parents|)
    && (forall i, j | 0 <= i < j < |commits| :: commits[i] != commits[j])
    && Closed(h, Interesting(h, commits))
  }

  /** Within a thousandth of half the range. */
  ghost predicate NearMiddle(w: nat, nr: nat) {
    Abs(2 * w - nr) < nr / 1024
  }

  /** What find_bisection promises of the commit to test: none but those missed is better, or it is near the middle. */
  ghost predicate GoodTestAmong(h: History, candidates: set<nat>, missed: set<nat>, c: nat)
    requires h.Valid() && forall c | c in candidates :: c < |h.parents|
  {
    var nr := |Changing(h, candidates)|;
    && c in Changing(h, candidates) && c !in missed
    && (NearMiddle(Weight(h, c), nr) ||
        forall d | d in Changing(h, candidates) && d !in missed :: Distance(Weight(h, d), nr) <= Distance(Weight(h, c), nr))
  }

  ghost predicate GoodTest(h: History, candidates: set<nat>, c: nat)
    requires h.Valid() && forall c | c in candidates :: c < |h.parents|
  {
    GoodTestAmong(h, candidates, {}, c)
  }

  /** So it is the best of fewer than 2048 candidates, and otherwise within a 2048th of the best. */
  lemma GoodTestIsNearBest(h: History, candidates: set<nat>, c: nat, d: nat)
    requires h.Valid() && forall c | c in candidates :: c < |h.parents|
    requires GoodTest(h, candidates, c) && d in Changing(h, candidates)
    ensures var nr := |Changing(h, candidates)|;
      && 2048 * Distance(Weight(h, d), nr) <= 2048 * Distance(Weight(h, c), nr) + nr
      && (nr < 2048 ==> Distance(Weight(h, d), nr) <= Distance(Weight(h, c), nr))
  {
  }

  /** The list that the first loop of find_bisection leaves: interesting commits only, reversed. */
  method ReverseInteresting(h: History, commits: seq<nat>) returns (list: seq<nat>, nr: nat)
    requires h.Valid() && Complete(h, commits)
    ensures Members(list) == Interesting(h, commits)
    ensures forall i, j | 0 <= i < j < |list| :: list[i] != list[j]
    ensures nr == |Changing(h, Interesting(h, commits))|
  {
    list, nr := [], 0;
    assert Members(list) == {};
    NothingChanging(h);
    for k := 0 to |commits|
      invariant forall c | c in list :: c in commits[..k] && c in commits && c !in h.uninteresting
      invariant forall i | 0 <= i < k && commits[i] !in h.uninteresting :: commits[i] in list
      invariant forall i, j | 0 <= i < j < |list| :: list[i] != list[j]
      invariant nr == |Changing(h, Members(list))|
    {
      var c := commits[k];
      assert commits[..k + 1] == commits[..k] + [c];
      if c !in h.uninteresting {
        assert c !in commits[..k];
        ChangingAdd(h, Members(list), c);
        assert Members([c] + list) == Members(list) + {c};
        list := [c] + list;
        if c !in h.treesame {
          nr := nr + 1;
        }
      }
    }
    assert commits[..|commits|] == commits;
    assert Members(list) == Interesting(h, commits);
  }

  /** find_bisection without FIND_BISECTION_ALL: the commit to test, how many it reaches, and how many there are. */
  method FindBisection(h: History, commits: seq<nat>) returns (best: Option<nat>, reaches: int, all: nat, ghost missed: set<nat>)
    requires h.Valid() && Complete(h, commits)
    ensures all == |Changing(h, Interesting(h, commits))|
    ensures best.None? <==> Interesting(h, commits) == {}
    ensures best.Some? ==> best.value in commits
    ensures missed <= Changing(h, Interesting(h, commits)) && |missed| <= |TreesameMerges(h, Interesting(h, commits))|
    ensures missed != Changing(h, Interesting(h, commits)) ==>
      GoodTestAmong(h, Interesting(h, commits), missed, best.value) && reaches == Weight(h, best.value)
    ensures all > 0 && TreesameMerges(h, Interesting(h, commits)) == {} ==> GoodTest(h, Interesting(h, commits), best.value)
  {
    hide Changing, Closed, Weight, TreesameMerges;
    var list;
    list, all := ReverseInteresting(h, commits);
    var b := new Bisection(h);
    assert Members(list) == Interesting(h, commits);
    forall c | c in list ensures c < |h.parents| && c !in h.uninteresting && c in commits {
      assert c in Interesting(h, commits);
    }
    best, missed := b.DoFindBisection(list, all);
    reaches := 0;
    if best.Some? {
      reaches := b.weight[best.value];
      assert best.value in Interesting(h, commits);
    } else {
      assert Interesting(h, commits) == {};
    }
    if missed != Changing(h, Interesting(h, commits)) {
      GoodChoiceIsGoodTest(b, list, all, missed, best.value);
    }
  }

  // ---------- a commit that is missed ----------

  /** Three roots and a child of the first one, all merged by a commit that leaves the tree alone. */
  function Octopus(): History {
    History([[], [0], [], [], [1, 2, 3]], {}, {4}, false)
  }

  const ALL_FIVE: seq<nat> := [0, 1, 2, 3, 4]

  lemma OctopusParents()
    ensures Octopus().Valid() && Closed(Octopus(), Members(ALL_FIVE))
    ensures forall c: nat | c < 5 :: InterestingParents(Octopus(), c, |Octopus().Walked(c)|) == [0, 1, 0, 0, 3][c]
    ensures |Octopus().parents| == 5 && Octopus().uninteresting == {} && Octopus().treesame == {4}
    ensures |Changing(Octopus(), Members(ALL_FIVE))| == 4
  {
    var h := Octopus();
    assert InterestingParents(h, 4, 1) == 1 && InterestingParents(h, 4, 2) == 2;
    assert Changing(h, Members(ALL_FIVE)) == {0, 1, 2, 3};
  }

  lemma OctopusWeights()
    ensures Octopus().Valid() && Weight(Octopus(), 0) == Weight(Octopus(), 2) == Weight(Octopus(), 3) == 1 && Weight(Octopus(), 1) == 2
  {
    OctopusParents();
    hide Weight, InterestingParents;
    WeightOfRoot(Octopus(), 0);
    WeightOfRoot(Octopus(), 2);
    WeightOfRoot(Octopus(), 3);
    WeightFromParent(Octopus(), 1, 0);
  }

  lemma OctopusKnown(b: Bisection, w: seq<int>)
    requires b.h == Octopus() && |w| == 5 && w[0] >= 0 && w[1] < 0 && w[2] >= 0 && w[3] >= 0 && w[4] >= 0
    ensures |b.Known(Members(ALL_FIVE), w)| == 4
  {
    OctopusParents();
    hide InterestingParents, Closed, Changing;
    assert b.Known(Members(ALL_FIVE), w) == {0, 2, 3, 4};
  }

  /**
   do_find_bisection on that history: counting the merge makes up the number of tree-changing commits, so that
   the last loop is not entered, the child has no weight, and a root is returned although the child is halfway.
   */
  method OctopusRun() returns (best: nat)
    ensures Octopus().Valid() && best in ALL_FIVE && best !in Octopus().treesame
    ensures Distance(Weight(Octopus(), best), 4) == 1 && Distance(Weight(Octopus(), 1), 4) == 2
  {
    OctopusParents();
    OctopusWeights();
    hide Octopus, Weight, InterestingParents, Closed, Changing, Bisection.Known, IsMerge, Bisection.Counts, Members;
    var b := new Bisection(Octopus());
    var known: nat := b.InitWeights(ALL_FIVE);
    assert 0 in ALL_FIVE && 1 in ALL_FIVE && 2 in ALL_FIVE && 3 in ALL_FIVE && 4 in ALL_FIVE;
    var found;
    found, known := b.WeighMerges(ALL_FIVE, 4, known);
    assert found.None?;
    assert b.weight[..] == [1, -1, 1, 1, b.weight[4]] && b.SlotOk(4, b.weight[..][4]);
    OctopusKnown(b, b.weight[..]);
    assert known == 4;
    found := b.BestBisection(ALL_FIVE, 4);
    best := found.value;
  }

  lemma GoodChoiceIsGoodTest(b: Bisection, list: seq<nat>, nr: nat, missed: set<nat>, c: nat)
    requires b.Valid() && b.Listed(list) && b.GoodChoice(list, nr, missed, c)
    requires nr == |Changing(b.h, Members(list))|
    ensures forall c | c in Members(list) :: c < |b.h.parents|
    ensures GoodTestAmong(b.h, Members(list), missed, c)
  {
  }

  // ---------- narrowing ----------

  /** The history as the next step sees it, without path limits. */
  function Seen(parents: seq<seq<nat>>, good: set<nat>): History {
    History(parents, good, {}, false)
  }

  /** All ancestors of `c`, itself included. */
  function Ancestors(parents: seq<seq<nat>>, c: nat): set<nat>
    requires Seen(parents, {}).Valid() && c < |parents|
  {
    Reach(Seen(parents, {}), c)
  }

  /** The commits between the bad one and the good ones: those that may be the first bad commit. */
  ghost function Candidates(parents: seq<seq<nat>>, bad: nat, good: set<nat>): set<nat>
    requires Seen(parents, {}).Valid() && bad < |parents|
  {
    assert Seen(parents, good).Valid();
    Reach(Seen(parents, good), bad)
  }

  /** Excluding a set of good commits with all their ancestors removes just those. */
  lemma {:induction false} CandidatesAre(parents: seq<seq<nat>>, c: nat, good: set<nat>)
    requires Seen(parents, {}).Valid() && c < |parents| && Closed(Seen(parents, {}), good)
    ensures Candidates(parents, c, good) == Ancestors(parents, c) - good
    decreases c
  {
    var h0, h := Seen(parents, {}), Seen(parents, good);
    if c in good {
      ClosedHoldsReach(h0, good, c);
    } else {
      forall x ensures x in Reach(h, c) <==> x in Reach(h0, c) && x !in good {
        ReachFromHas(h0, c, |h0.Walked(c)|, x);
        ReachFromHas(h, c, |h.Walked(c)|, x);
        forall i | 0 <= i < |h.Walked(c)|
          ensures x in Reach(h, h.Walked(c)[i]) <==> x in Reach(h0, h0.Walked(c)[i]) && x !in good
        {
          CandidatesAre(parents, h.Walked(c)[i], good);
          assert Candidates(parents, h.Walked(c)[i], good) == Reach(h, h.Walked(c)[i]);
        }
      }
    }
  }

  /** `first` is the only commit that introduced the defect: a commit is bad when it contains `first`. */
  ghost predicate FirstBad(parents: seq<seq<nat>>, isBad: nat -> bool, first: nat)
    requires Seen(parents, {}).Valid()
  {
    first < |parents| && forall c: nat | c < |parents| :: isBad(c) <==> first in Ancestors(parents, c)
  }

  /** What bisect_next_all may rely on from one step to the next. */
  ghost predicate Sound(parents: seq<seq<nat>>, isBad: nat -> bool, first: nat, bad: nat, good: set<nat>)
    requires Seen(parents, {}).Valid() && bad < |parents|
  {
    && FirstBad(parents, isBad, first) && isBad(bad) && first !in good
    && Closed(Seen(parents, {}), good)
  }

  lemma FirstBadIsCandidate(parents: seq<seq<nat>>, isBad: nat -> bool, first: nat, bad: nat, good: set<nat>)
    requires Seen(parents, {}).Valid() && bad < |parents| && Sound(parents, isBad, first, bad, good)
    ensures first in Candidates(parents, bad, good) && bad !in good
  {
    CandidatesAre(parents, bad, good);
  }

  /** The bad commit reaches every candidate, any other candidate only some. */
  lemma BadIsExtreme(parents: seq<seq<nat>>, bad: nat, good: set<nat>, d: nat)
    requires Seen(parents, good).Valid() && bad < |parents| && bad !in good
    requires d in Candidates(parents, bad, good) && d != bad
    ensures d < |parents| && 0 < Weight(Seen(parents, good), d) < |Candidates(parents, bad, good)|
    ensures Weight(Seen(parents, good), bad) == |Candidates(parents, bad, good)|
  {
    var h, all := Seen(parents, good), Candidates(parents, bad, good);
    ReachClosed(h, bad);
    ReachBelow(h, bad, d);
    ClosedHoldsReach(h, all, d);
    if bad in Reach(h, d) {
      ReachBelow(h, d, bad);
    }
    assert d in Reach(h, d) && bad in all && bad !in Reach(h, d);
    assert Changing(h, Reach(h, d)) == Reach(h, d) && Changing(h, all) == all;
    Bisection.SubsetSize(Reach(h, d), all);
    Bisection.SubsetSize({d}, Reach(h, d));
  }

  /** The bad commit is proposed for testing only when nothing else is left. */
  lemma BadIsTestedLast(parents: seq<seq<nat>>, bad: nat, good: set<nat>, c: nat)
    requires Seen(parents, good).Valid() && bad < |parents| && bad !in good
    requires forall c | c in Candidates(parents, bad, good) :: c < |parents|
    requires GoodTest(Seen(parents, good), Candidates(parents, bad, good), c)
    ensures c == bad <==> Candidates(parents, bad, good) == {bad}
  {
    var h, all := Seen(parents, good), Candidates(parents, bad, good);
    assert Changing(h, all) == all;
    assert bad in all;
    if all != {bad} {
      var d :| d in all && d != bad;
      BadIsExtreme(parents, bad, good, d);
    }
  }

  /** A bad result keeps the first bad commit and strictly fewer candidates. */
  lemma TestedBad(parents: seq<seq<nat>>, isBad: nat -> bool, first: nat, bad: nat, good: set<nat>, c: nat)
    requires Seen(parents, {}).Valid() && bad < |parents| && c < |parents| && Sound(parents, isBad, first, bad, good)
    requires c in Candidates(parents, bad, good) && c != bad && isBad(c)
    ensures Sound(parents, isBad, first, c, good)
    ensures Candidates(parents, c, good) < Candidates(parents, bad, good)
  {
    var h := Seen(parents, good);
    ReachClosed(h, bad);
    ClosedHoldsReach(h, Candidates(parents, bad, good), c);
    ReachBelow(h, bad, c);
    FirstBadIsCandidate(parents, isBad, first, bad, good);
    assert bad !in good;
    if bad in Reach(h, c) {
      ReachBelow(h, c, bad);
    }
    assert bad in Candidates(parents, bad, good);
  }

  /** So does a good result. */
  lemma TestedGood(parents: seq<seq<nat>>, isBad: nat -> bool, first: nat, bad: nat, good: set<nat>, c: nat)
    requires Seen(parents, {}).Valid() && bad < |parents| && c < |parents| && Sound(parents, isBad, first, bad, good)
    requires c in Candidates(parents, bad, good) && !isBad(c)
    ensures Sound(parents, isBad, first, bad, good + Ancestors(parents, c))
    ensures Candidates(parents, bad, good + Ancestors(parents, c)) < Candidates(parents, bad, good)
  {
    var h0 := Seen(parents, {});
    ReachClosed(h0, c);
    ClosedUnion(h0, good, Ancestors(parents, c));
    CandidatesAre(parents, bad, good);
    CandidatesAre(parents, bad, good + Ancestors(parents, c));
    assert c in Ancestors(parents, c);
  }

  /** Any walk that lists the candidates once each is a list that find_bisection accepts. */
  lemma CandidateListIsComplete(parents: seq<seq<nat>>, bad: nat, good: set<nat>, commits: seq<nat>)
    requires Seen(parents, good).Valid() && bad < |parents|
    requires forall c :: c in commits <==> c in Candidates(parents, bad, good)
    requires forall i, j | 0 <= i < j < |commits| :: commits[i] != commits[j]
    ensures Complete(Seen(parents, good), commits)
    ensures Interesting(Seen(parents, good), commits) == Candidates(parents, bad, good)
  {
    var h := Seen(parents, good);
    forall c | c in commits ensures c < |parents| && c !in good {
      ReachBelow(h, bad, c);
    }
    assert Interesting(h, commits) == Candidates(parents, bad, good);
    ReachClosed(h, bad);
  }

  /** A way to propose commits that meets what find_bisection promises. */
  ghost predicate Proposes(parents: seq<seq<nat>>, choose: (nat, set<nat>) -> nat)
    requires Seen(parents, {}).Valid()
  {
    forall bad: nat, good | bad < |parents| && bad !in good ::
      && (forall c | c in Candidates(parents, bad, good) :: c < |parents|)
      && GoodTest(Seen(parents, good), Candidates(parents, bad, good), choose(bad, good))
  }

  lemma ProposalIsCandidate(parents: seq<seq<nat>>, choose: (nat, set<nat>) -> nat, bad: nat, good: set<nat>)
    requires Seen(parents, {}).Valid() && Proposes(parents, choose) && bad < |parents| && bad !in good
    ensures choose(bad, good) in Candidates(parents, bad, good) && choose(bad, good) < |parents|
    ensures choose(bad, good) == bad <==> Candidates(parents, bad, good) == {bad}
  {
    hide Reach, Weight;
    assert choose(bad, good) in Changing(Seen(parents, good), Candidates(parents, bad, good));
    BadIsTestedLast(parents, bad, good, choose(bad, good));
  }

  /** A bisection from start to end: what it finally reports as the first bad commit. */
  ghost function Session(parents: seq<seq<nat>>, isBad: nat -> bool, choose: (nat, set<nat>) -> nat,
                         first: nat, bad: nat, good: set<nat>): nat
    requires Seen(parents, {}).Valid() && bad < |parents|
    requires Proposes(parents, choose) && Sound(parents, isBad, first, bad, good)
    decreases Candidates(parents, bad, good)
  {
    FirstBadIsCandidate(parents, isBad, first, bad, good);
    ProposalIsCandidate(parents, choose, bad, good);
    var c := choose(bad, good);
    if c == bad then bad
    else if isBad(c) then
      TestedBad(parents, isBad, first, bad, good, c);
      Session(parents, isBad, choose, first, c, good)
    else
      TestedGood(parents, isBad, first, bad, good, c);
      Session(parents, isBad, choose, first, bad, good + Ancestors(parents, c))
  }

  /** Every bisection ends, and at the first bad commit. */
  lemma {:induction false} SessionFindsFirstBad(parents: seq<seq<nat>>, isBad: nat -> bool, choose: (nat, set<nat>) -> nat,
                                                first: nat, bad: nat, good: set<nat>)
    requires Seen(parents, {}).Valid() && bad < |parents|
    requires Proposes(parents, choose) && Sound(parents, isBad, first, bad, good)
    ensures Session(parents, isBad, choose, first, bad, good) == first
    decreases Candidates(parents, bad, good)
  {
    hide Proposes, Sound, Candidates, Ancestors;
    FirstBadIsCandidate(parents, isBad, first, bad, good);
    ProposalIsCandidate(parents, choose, bad, good);
    var c := choose(bad, good);
    if c == bad {
    } else if isBad(c) {
      TestedBad(parents, isBad, first, bad, good, c);
      SessionFindsFirstBad(parents, isBad, choose, first, c, good);
    } else {
      TestedGood(parents, isBad, first, bad, good, c);
      SessionFindsFirstBad(parents, isBad, choose, first, bad, good + Ancestors(parents, c));
    }
  }

  /** What the walk of the history lists between the bad commit and the good ones: the candidates, once each. */
  ghost predicate Lists(parents: seq<seq<nat>>, revList: (nat, set<nat>) -> seq<nat>)
    requires Seen(parents, {}).Valid()
  {
    forall bad: nat, good | bad < |parents| && bad !in good ::
      var commits := revList(bad, good);
      (forall c :: c in commits <==> c in Candidates(parents, bad, good)) && forall i, j | 0 <= i < j < |commits| :: commits[i] != commits[j]
  }

  /** A bisection with the commits that find_bisection proposes: it ends, and reports the first bad commit. */
  method FindFirstBad(parents: seq<seq<nat>>, isBad: nat -> bool, revList: (nat, set<nat>) -> seq<nat>, bad0: nat, good0: set<nat>, ghost first: nat)
    returns (found: nat)
    requires Seen(parents, {}).Valid() && bad0 < |parents|
    requires Sound(parents, isBad, first, bad0, good0) && Lists(parents, revList)
    ensures found == first
  {
    hide Sound, Lists, Candidates, Ancestors, Complete, GoodTest, Interesting, Changing, Weight;
    var bad: nat, good := bad0, good0;
    while true
      invariant bad < |parents| && Sound(parents, isBad, first, bad, good)
      decreases Candidates(parents, bad, good)
    {
      FirstBadIsCandidate(parents, isBad, first, bad, good);
      var h := Seen(parents, good);
      var commits := revList(bad, good);
      ListedIsComplete(parents, revList, bad, good);
      AllCandidatesCount(parents, bad, good, first);
      NoTreesameMerges(h, Candidates(parents, bad, good));
      var best, reaches, all, _ := FindBisection(h, commits);
      var c := best.value;
      CandidatesAreCommits(parents, bad, good);
      TestIsCandidate(parents, bad, good, c);
      if c == bad {
        OnlyBadIsLeft(parents, isBad, first, bad, good);
        return bad;
      }
      if isBad(c) {
        TestedBad(parents, isBad, first, bad, good, c);
        bad := c;
      } else {
        TestedGood(parents, isBad, first, bad, good, c);
        good := good + Ancestors(parents, c);
      }
    }
  }

  lemma NoTreesameMerges(h: History, s: set<nat>)
    requires h.treesame == {}
    ensures TreesameMerges(h, s) == {}
  {
  }

  lemma AllCandidatesCount(parents: seq<seq<nat>>, bad: nat, good: set<nat>, first: nat)
    requires Seen(parents, {}).Valid() && bad < |parents| && first in Candidates(parents, bad, good)
    ensures |Changing(Seen(parents, good), Candidates(parents, bad, good))| > 0
  {
    hide Reach;
    assert first in Changing(Seen(parents, good), Candidates(parents, bad, good));
  }

  lemma CandidatesAreCommits(parents: seq<seq<nat>>, bad: nat, good: set<nat>)
    requires Seen(parents, {}).Valid() && bad < |parents|
    ensures forall x | x in Candidates(parents, bad, good) :: x < |parents|
  {
    forall x | x in Candidates(parents, bad, good) ensures x < |parents| {
      ReachBelow(Seen(parents, good), bad, x);
    }
  }

  lemma TestIsCandidate(parents: seq<seq<nat>>, bad: nat, good: set<nat>, c: nat)
    requires Seen(parents, {}).Valid() && bad < |parents| && bad !in good
    requires forall x | x in Candidates(parents, bad, good) :: x < |parents|
    requires GoodTest(Seen(parents, good), Candidates(parents, bad, good), c)
    ensures c in Candidates(parents, bad, good) && c < |parents|
    ensures c == bad <==> Candidates(parents, bad, good) == {bad}
  {
    hide Reach, Weight;
    assert c in Changing(Seen(parents, good), Candidates(parents, bad, good));
    BadIsTestedLast(parents, bad, good, c);
  }

  lemma OnlyBadIsLeft(parents: seq<seq<nat>>, isBad: nat -> bool, first: nat, bad: nat, good: set<nat>)
    requires Seen(parents, {}).Valid() && bad < |parents| && Sound(parents, isBad, first, bad, good)
    requires Candidates(parents, bad, good) == {bad}
    ensures bad == first
  {
    FirstBadIsCandidate(parents, isBad, first, bad, good);
  }

  lemma ListedIsComplete(parents: seq<seq<nat>>, revList: (nat, set<nat>) -> seq<nat>, bad: nat, good: set<nat>)
    requires Seen(parents, {}).Valid() && Lists(parents, revList) && bad < |parents| && bad !in good
    ensures Seen(parents, good).Valid() && Complete(Seen(parents, good), revList(bad, good))
    ensures Interesting(Seen(parents, good), revList(bad, good)) == Candidates(parents, bad, good)
  {
    hide Reach;
    CandidateListIsComplete(parents, bad, good, revList(bad, good));
  }
}
