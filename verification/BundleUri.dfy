/**
 Fetching bundles in bundle-uri.c: the walk up and down the list sorted by creation token, and
 the loop that unbundles whatever can be unbundled.
 */
module BundleUri {

  /** What came of a download: a failed one may or may not leave a file name behind. */
  datatype Download = Failed(named: bool) | NotABundle | Fetched

  class Bundle {
    const token: nat
    var file: bool
    var unbundled: bool

    constructor (creationToken: nat)
      ensures token == creationToken && !file && !unbundled
    {
      token, file, unbundled := creationToken, false, false;
    }
  }

  ghost predicate Distinct(items: seq<Bundle>) {
    forall i, j | 0 <= i < j < |items| :: items[i] != items[j]
  }

  /** The tokens never increase. */
  ghost predicate Sorted(items: seq<Bundle>) {
    forall i, j | 0 <= i < j < |items| :: items[i].token >= items[j].token
  }

  ghost predicate Marked(items: seq<Bundle>, done: set<nat>)
    reads items
  {
    forall i | 0 <= i < |items| :: items[i].unbundled <==> i in done
  }

  ghost predicate Within(done: set<nat>, n: nat) {
    forall i | i in done :: i < n
  }

  /** How many of `n` bundles are not marked. */
  ghost function Left(done: set<nat>, n: nat): nat {
    if n == 0 then 0 else Left(done, n - 1) + if n - 1 in done then 0 else 1
  }

  ghost predicate NewerThan(items: seq<Bundle>, applied: set<nat>, token: nat) {
    forall i | i in applied && i < |items| :: items[i].token > token
  }

  /** `most` is the largest token of the applied bundles, or 0. */
  ghost predicate LargestToken(items: seq<Bundle>, applied: set<nat>, most: int) {
    && (forall i | i in applied && i < |items| :: items[i].token <= most)
    && (most == 0 || exists i :: i in applied && i < |items| && items[i].token == most)
  }

  lemma OneMoreToken(items: seq<Bundle>, applied: set<nat>, most: nat, cur: nat)
    requires LargestToken(items, applied, most) && cur < |items|
    ensures LargestToken(items, applied + {cur}, if items[cur].token > most then items[cur].token else most)
  {
    if items[cur].token > most {
      assert cur in applied + {cur};
    } else if most != 0 {
      var i :| i in applied && i < |items| && items[i].token == most;
      assert i in applied + {cur};
    }
  }

  /** What the walk has left behind is marked. */
  ghost predicate Behind(cur: int, move: int, deepest: int, done: set<nat>, n: nat) {
    && -1 <= cur <= deepest <= n && (deepest == n ==> cur == n)
    && match move
      case 0 => cur == deepest == 0 && done == {}
      case 1 => cur >= 1 && forall i: nat | cur <= i < deepest :: i in done
      case -1 => forall i: nat | cur < i <= deepest :: i in done
      case _ => false
  }

  lemma StepDown(cur: nat, move: int, deepest: int, done: set<nat>, n: nat, done2: set<nat>)
    requires Behind(cur, move, deepest, done, n) && cur < n && done <= done2
    ensures Behind(cur + 1, 1, if cur + 1 > deepest then cur + 1 else deepest, done2, n)
  {
  }

  lemma StepUp(cur: nat, move: int, deepest: int, done: set<nat>, n: nat, done2: set<nat>)
    requires Behind(cur, move, deepest, done, n) && cur < n && done <= done2 && cur in done2
    requires move == -1 || cur !in done
    ensures Behind(cur - 1, -1, deepest, done2, n)
  {
  }

  lemma NothingYet(items: seq<Bundle>)
    ensures Within({}, |items|) && forall t :: NewerThan(items, {}, t)
  {
  }

  /** Marking one more bundle leaves fewer. */
  lemma {:induction false} Shrinks(done: set<nat>, cur: nat, n: nat)
    ensures Left(done + {cur}, n) <= Left(done, n) && (cur < n && cur !in done ==> Left(done + {cur}, n) < Left(done, n))
  {
    if n > 0 {
      Shrinks(done, cur, n - 1);
    }
  }

  lemma OneMoreNewer(items: seq<Bundle>, applied: set<nat>, lost: set<nat>, token: nat, cur: nat)
    requires NewerThan(items, applied, token) && cur < |items| && items[cur].token > token && Within(applied + lost, |items|)
    ensures NewerThan(items, applied + {cur}, token) && Within(applied + {cur} + lost, |items|)
    ensures applied + {cur} + lost == applied + lost + {cur}
  {
  }

  lemma OneMoreLost(applied: set<nat>, lost: set<nat>, cur: nat, n: nat)
    requires cur < n && Within(applied + lost, n)
    ensures Within(applied + (lost + {cur}), n) && applied + (lost + {cur}) == applied + lost + {cur}
  {
  }

  /** What the walk does with a bundle: downloads it if need be, and unbundles it if need be. */
  datatype Visit = NoDownload | NoBundle | NotYet | Applied | Passed

  /** `state` holds the bundles that have been unbundled, which `unbundle` may depend on. */
  method VisitBundle(bundle: Bundle, cur: nat, step: nat, state: set<nat>, download: (nat, nat) -> Download, unbundle: (nat, set<nat>, nat) -> bool)
    returns (v: Visit)
    modifies bundle
    ensures bundle.unbundled == (old(bundle.unbundled) || v == NoDownload || v == Applied)
    ensures v == NoDownload <==> !old(bundle.file) && download(step, cur).Failed?
    ensures bundle.file == if v == NoDownload then download(step, cur).named else true
    ensures v == NoBundle <==> !old(bundle.file) && download(step, cur).NotABundle?
    ensures v == Passed ==> old(bundle.unbundled)
    ensures v == Applied || v == NotYet ==> !old(bundle.unbundled) && (v == Applied <==> unbundle(step, state, cur))
  {
    if !bundle.file {
      match download(step, cur)
      case Failed(named) =>
        bundle.file := named;
        bundle.unbundled := true;
        return NoDownload;
      case NotABundle =>
        bundle.file := true;
        return NoBundle;
      case Fetched =>
        bundle.file := true;
    }
    if bundle.unbundled {
      return Passed;
    }
    if !unbundle(step, state, cur) {
      return NotYet;
    }
    bundle.unbundled := true;
    return Applied;
  }

  ghost function Files(items: seq<Bundle>): (f: seq<bool>)
    reads items
    ensures |f| == |items|
  {
    seq(|items|, i requires 0 <= i < |items| reads items => items[i].file)
  }

  /** Whatever is visited has a file or is marked; nothing else has been touched, and no file has gone. */
  ghost predicate Touched(items: seq<Bundle>, files: seq<bool>, seen: set<nat>)
    requires |files| == |items|
    reads items
  {
    && (forall i: nat | i in seen && i < |items| :: items[i].file || items[i].unbundled)
    && (forall i: nat | i < |items| && i !in seen :: items[i].file == files[i] && !items[i].unbundled)
    && forall i: nat | i < |items| && files[i] :: items[i].file
  }

  method VisitMarks(items: seq<Bundle>, cur: nat, step: nat, state: set<nat>, download: (nat, nat) -> Download, unbundle: (nat, set<nat>, nat) -> bool,
                 ghost done: set<nat>, ghost files: seq<bool>, ghost seen: set<nat>)
    returns (v: Visit)
    requires cur < |items| == |files| && Distinct(items) && Marked(items, done) && Touched(items, files, seen)
    modifies items[cur]
    ensures Marked(items, if v == NoDownload || v == Applied then done + {cur} else done)
    ensures (v == Passed ==> cur in done) && (v == Applied || v == NotYet ==> cur !in done)
    ensures (v == Applied ==> unbundle(step, state, cur)) && (v == NotYet ==> !unbundle(step, state, cur))
    ensures (v == NoDownload ==> download(step, cur).Failed?) && (v == NoBundle ==> !files[cur] && download(step, cur).NotABundle?)
    ensures Touched(items, files, seen + {cur})
  {
    v := VisitBundle(items[cur], cur, step, state, download, unbundle);
  }

  /** Where the walk stands. */
  datatype Walk = Walk(cur: int, move: int, deepest: int, applied: set<nat>, lost: set<nat>, newMaxToken: nat)

  ghost predicate WalkOk(items: seq<Bundle>, maxToken: nat, w: Walk) {
    && -1 <= w.cur <= |items| && 0 <= w.deepest && Behind(w.cur, w.move, w.deepest, w.applied + w.lost, |items|)
    && w.move in {-1, 0, 1} && (w.move == -1 ==> w.applied != {}) && (w.move == 0 ==> w.applied + w.lost == {})
    && Within(w.applied + w.lost, |items|) && LargestToken(items, w.applied, w.newMaxToken) && NewerThan(items, w.applied, maxToken)
    && (w.cur < 0 ==> w.move == -1)
  }

  /** Applied bundles are those that were unbundled at some step, and lost ones those that could not be downloaded. */
  ghost predicate Witnessed(applied: set<nat>, lost: set<nat>, download: (nat, nat) -> Download, unbundle: (nat, set<nat>, nat) -> bool) {
    && (forall i | i in applied :: exists step: nat, state :: unbundle(step, state, i))
    && forall i | i in lost :: exists step: nat :: download(step, i).Failed?
  }

  lemma WitnessOne(applied: set<nat>, lost: set<nat>, download: (nat, nat) -> Download, unbundle: (nat, set<nat>, nat) -> bool, step: nat, cur: nat)
    requires Witnessed(applied, lost, download, unbundle)
    ensures unbundle(step, applied, cur) ==> Witnessed(applied + {cur}, lost, download, unbundle)
    ensures download(step, cur).Failed? ==> Witnessed(applied, lost + {cur}, download, unbundle)
  {
  }

  /** The effect of a visit on the walk. */
  ghost function Visited(items: seq<Bundle>, w: Walk, v: Visit): Walk
    requires 0 <= w.cur < |items|
  {
    var token := items[w.cur].token;
    var move := match v
      case NoDownload => 1
      case NotYet => 1
      case Applied => -1
      case _ => w.move;
    Walk(w.cur + move, move, if move == 1 && w.cur + 1 > w.deepest then w.cur + 1 else w.deepest,
         if v == Applied then w.applied + {w.cur} else w.applied, if v == NoDownload then w.lost + {w.cur} else w.lost,
         if v == Applied && token > w.newMaxToken then token else w.newMaxToken)
  }

  /** More bundles are marked, or else it has turned downwards, or has gone on in its direction. */
  ghost predicate Nearer(w: Walk, w2: Walk, n: nat) {
    var l, l2 := Left(w.applied + w.lost, n), Left(w2.applied + w2.lost, n);
    l2 < l || (l2 == l && ((w.move == -1 && w2.move == 1) || (w2.move == w.move == -1 && w2.cur < w.cur)
                           || (w2.move == 1 && w.move != -1 && w2.cur > w.cur)))
  }

  /** Each step of the walk keeps its invariant and brings it nearer to its end. */
  lemma WalkStep(items: seq<Bundle>, maxToken: nat, w: Walk, v: Visit)
    requires WalkOk(items, maxToken, w) && 0 <= w.cur < |items| && items[w.cur].token > maxToken && v != NoBundle
    requires v == Passed ==> w.cur in w.applied + w.lost
    requires v == Applied || v == NotYet ==> w.cur !in w.applied + w.lost
    ensures var w2 := Visited(items, w, v);
      && WalkOk(items, maxToken, w2)
      && w2.applied + w2.lost == (if v == NoDownload || v == Applied then w.applied + w.lost + {w.cur} else w.applied + w.lost)
      && Nearer(w, w2, |items|)
  {
    hide LargestToken, Behind, NewerThan, Within, Left;
    var cur: nat, done := w.cur, w.applied + w.lost;
    var w2 := Visited(items, w, v);
    if v == NoDownload {
      OneMoreLost(w.applied, w.lost, cur, |items|);
    } else if v == Applied {
      OneMoreToken(items, w.applied, w.newMaxToken, cur);
      OneMoreNewer(items, w.applied, w.lost, maxToken, cur);
    }
    Shrinks(done, cur, |items|);
    if w2.move == 1 {
      StepDown(cur, w.move, w.deepest, done, |items|, w2.applied + w2.lost);
    } else {
      StepUp(cur, w.move, w.deepest, done, |items|, w2.applied + w2.lost);
    }
  }

  lemma WalkStarts(items: seq<Bundle>, maxToken: nat)
    requires items != []
    ensures WalkOk(items, maxToken, Walk(0, 0, 0, {}, {}, 0))
  {
  }

  lemma WalkBounds(items: seq<Bundle>, maxToken: nat, w: Walk)
    requires WalkOk(items, maxToken, w)
    ensures -1 <= w.cur <= |items| && Within(w.applied + w.lost, |items|) && NewerThan(items, w.applied, maxToken)
    ensures w.move in {-1, 0, 1}
  {
  }

  /** The walk that comes back to the top has passed only bundles that are marked, and has unbundled some. */
  lemma BackAtTheTop(items: seq<Bundle>, maxToken: nat, w: Walk)
    requires WalkOk(items, maxToken, w) && w.cur < 0
    ensures 0 <= w.deepest < |items| && (forall i: nat | i <= w.deepest :: i in w.applied + w.lost)
    ensures w.applied != {} && LargestToken(items, w.applied, w.newMaxToken) && w.newMaxToken > maxToken
  {
    var i: nat :| i in w.applied;
    assert i in w.applied + w.lost;
  }

  lemma NoneMarked(items: seq<Bundle>)
    requires forall b | b in items :: !b.unbundled
    ensures Marked(items, {} + {})
  {
  }

  /** Every download works, and a bundle can be unbundled once all older ones are in. */
  ghost predicate InOrder(n: nat, download: (nat, nat) -> Download, unbundle: (nat, set<nat>, nat) -> bool) {
    && (forall step: nat, i: nat :: download(step, i).Fetched?)
    && forall step: nat, state, i: nat | i < n && (forall j: nat | i < j < n :: j in state) :: unbundle(step, state, i)
  }

  /** Then the walk goes down only while an older bundle is missing. */
  ghost predicate MissesOlder(w: Walk, n: nat) {
    w.lost == {} && (w.move == 1 ==> exists j: nat :: w.cur <= j < n && j !in w.applied)
  }

  lemma NothingTouched(items: seq<Bundle>)
    requires forall b | b in items :: !b.unbundled
    ensures Touched(items, Files(items), {})
  {
  }

  lemma NoFailure(n: nat, download: (nat, nat) -> Download, unbundle: (nat, set<nat>, nat) -> bool, step: nat, cur: nat)
    requires InOrder(n, download, unbundle)
    ensures download(step, cur).Fetched?
  {
  }

  lemma StillMisses(items: seq<Bundle>, w: Walk, v: Visit, step: nat, download: (nat, nat) -> Download, unbundle: (nat, set<nat>, nat) -> bool)
    requires 0 <= w.cur < |items| && InOrder(|items|, download, unbundle) && MissesOlder(w, |items|)
    requires v != NoDownload && v != NoBundle && (v == NotYet ==> !unbundle(step, w.applied, w.cur))
    requires v == Passed ==> w.cur in w.applied + w.lost
    ensures MissesOlder(Visited(items, w, v), |items|)
  {
    if v == NotYet {
      var j: nat :| w.cur < j < |items| && j !in w.applied;
    } else if v == Passed && w.move == 1 {
      var j: nat :| w.cur <= j < |items| && j !in w.applied;
    }
  }

  /** Why the walk stopped: behind either end, at a bundle that is too old, or at one whose download is no bundle. */
  ghost predicate Stopped(items: seq<Bundle>, maxToken: nat, download: (nat, nat) -> Download, cur: int, files: seq<bool>, seen: set<nat>)
    requires |files| == |items|
  {
    && -1 <= cur <= |items| && (cur == |items| ==> forall i: nat | i < |items| :: i in seen)
    && (0 <= cur < |items| ==> items[cur].token <= maxToken || (!files[cur] && exists step: nat :: download(step, cur).NotABundle?))
  }

  /** What holds between two steps of the walk; `files` tells which bundles had a file at first. */
  ghost predicate Walking(items: seq<Bundle>, maxToken: nat, download: (nat, nat) -> Download, unbundle: (nat, set<nat>, nat) -> bool,
                          files: seq<bool>, w: Walk, seen: set<nat>)
    requires |files| == |items|
    reads items
  {
    && WalkOk(items, maxToken, w) && Marked(items, w.applied + w.lost) && Witnessed(w.applied, w.lost, download, unbundle)
    && Touched(items, files, seen) && (forall i: nat | i < w.deepest :: i in seen)
    && w.cur <= w.deepest && (w.cur == |items| ==> w.move == 1)
    && (InOrder(|items|, download, unbundle) ==> MissesOlder(w, |items|))
  }

  lemma WalkingStarts(items: seq<Bundle>, maxToken: nat, download: (nat, nat) -> Download, unbundle: (nat, set<nat>, nat) -> bool)
    requires items != [] && forall b | b in items :: !b.unbundled
    ensures Walking(items, maxToken, download, unbundle, Files(items), Walk(0, 0, 0, {}, {}, 0), {})
  {
    hide WalkOk, Marked, Witnessed, Touched, InOrder;
    WalkStarts(items, maxToken);
    NoneMarked(items);
    NoneWitnessed(download, unbundle);
    NothingTouched(items);
  }

  /** One visit: afterwards the walk has moved and is nearer to its end, or there was no bundle. */
  method VisitAt(items: seq<Bundle>, cur: nat, step: nat, state: set<nat>, maxToken: nat, download: (nat, nat) -> Download,
                 unbundle: (nat, set<nat>, nat) -> bool, ghost files: seq<bool>, ghost w: Walk, ghost seen: set<nat>)
    returns (v: Visit)
    requires |files| == |items| && Distinct(items) && Walking(items, maxToken, download, unbundle, files, w, seen)
    requires cur == w.cur < |items| && items[cur].token > maxToken && state == w.applied
    modifies items[cur]
    ensures v == NoBundle ==>
      && Marked(items, w.applied + w.lost) && Touched(items, files, seen + {cur})
      && !files[cur] && download(step, cur).NotABundle? && !InOrder(|items|, download, unbundle)
    ensures v != NoBundle ==>
      var w2 := Visited(items, w, v);
      && Walking(items, maxToken, download, unbundle, files, w2, seen + {cur}) && Nearer(w, w2, |items|)
  {
    hide WalkOk, Witnessed, Touched, InOrder, Marked, MissesOlder, Distinct, Left;
    v := VisitMarks(items, cur, step, state, download, unbundle, w.applied + w.lost, files, seen);
    if InOrder(|items|, download, unbundle) {
      NoFailure(|items|, download, unbundle, step, cur);
    }
    if v != NoBundle {
      WitnessOne(w.applied, w.lost, download, unbundle, step, cur);
      WalkStep(items, maxToken, w, v);
      WalkBounds(items, maxToken, w);
      if InOrder(|items|, download, unbundle) {
        StillMisses(items, w, v, step, download, unbundle);
      }
    }
  }

  lemma WalkingMeans(items: seq<Bundle>, maxToken: nat, download: (nat, nat) -> Download, unbundle: (nat, set<nat>, nat) -> bool,
                     files: seq<bool>, w: Walk, seen: set<nat>)
    requires |files| == |items| && Walking(items, maxToken, download, unbundle, files, w, seen)
    ensures WalkOk(items, maxToken, w) && Marked(items, w.applied + w.lost) && Witnessed(w.applied, w.lost, download, unbundle)
    ensures Touched(items, files, seen) && w.move in {-1, 0, 1} && -1 <= w.cur <= |items|
    ensures w.cur == |items| ==> forall i: nat | i < |items| :: i in seen
    ensures InOrder(|items|, download, unbundle) ==> w.lost == {} && w.cur < |items|
  {
    hide Witnessed, Touched, InOrder, Marked;
  }

  /** The walk of fetch_bundles_by_token. `download` and `unbundle` answer for the bundle at an index at some step. */
  method WalkBundles(items: seq<Bundle>, maxToken: nat, download: (nat, nat) -> Download, unbundle: (nat, set<nat>, nat) -> bool)
    returns (cur: int, newMaxToken: nat, ghost w: Walk, ghost seen: set<nat>)
    requires items != [] && Distinct(items) && forall b | b in items :: !b.unbundled
    modifies items
    ensures WalkOk(items, maxToken, w) && Marked(items, w.applied + w.lost) && cur == w.cur && newMaxToken == w.newMaxToken
    ensures Witnessed(w.applied, w.lost, download, unbundle)
    ensures Touched(items, old(Files(items)), seen) && Stopped(items, maxToken, download, cur, old(Files(items)), seen)
    ensures InOrder(|items|, download, unbundle) && (forall b | b in items :: b.token > maxToken) ==> cur < 0 && w.lost == {}
  {
    hide Walking, Left, Distinct, InOrder, WalkOk, Marked, Witnessed, Touched;
    seen, w := {}, Walk(0, 0, 0, {}, {}, 0);
    ghost var files := Files(items);
    WalkingStarts(items, maxToken, download, unbundle);
    WalkingMeans(items, maxToken, download, unbundle, files, w, seen);
    var move: int, step: nat, state: set<nat> := 0, 0, {};
    cur, newMaxToken := 0, 0;
    assert forall i | 0 <= i < |items| :: items[i] in items;
    while 0 <= cur < |items|
      invariant Walking(items, maxToken, download, unbundle, files, w, seen)
      invariant w.move in {-1, 0, 1} && cur == w.cur <= |items| && move == w.move && newMaxToken == w.newMaxToken && state == w.applied
      decreases Left(w.applied + w.lost, |items|), move == -1, if move == -1 then cur else |items| - cur
    {
      WalkingMeans(items, maxToken, download, unbundle, files, w, seen);
      var token := items[cur].token;
      if token <= maxToken {
        break;
      }
      var v := VisitAt(items, cur, step, state, maxToken, download, unbundle, files, w, seen);
      seen := seen + {cur};
      if v == NoBundle {
        return;
      }
      w := Visited(items, w, v);
      WalkingMeans(items, maxToken, download, unbundle, files, w, seen);
      if v == NoDownload || v == NotYet {
        move := 1;
      } else if v == Applied {
        move, state := -1, state + {cur};
        if token > newMaxToken {
          newMaxToken := token;
        }
      }
      step := step + 1;
      cur := cur + move;
    }
    WalkingMeans(items, maxToken, download, unbundle, files, w, seen);
  }

  lemma NoneWitnessed(download: (nat, nat) -> Download, unbundle: (nat, set<nat>, nat) -> bool)
    ensures Witnessed({}, {}, download, unbundle)
  {
  }

  lemma NewestIsStored(items: seq<Bundle>, applied: set<nat>, most: int)
    requires items != [] && Sorted(items) && LargestToken(items, applied, most) && 0 in applied
    ensures most == items[0].token
  {
  }

  /** fetch_bundles_by_token after sorting. `stored` is the token written to the configuration, or -1. */
  method FetchByToken(items: seq<Bundle>, configured: bool, configuredToken: nat,
                      download: (nat, nat) -> Download, unbundle: (nat, set<nat>, nat) -> bool)
    returns (failed: bool, stored: int, ghost applied: set<nat>, ghost lost: set<nat>, ghost deepest: int, ghost end: int, ghost seen: set<nat>)
    requires Distinct(items) && Sorted(items) && forall b | b in items :: !b.unbundled
    modifies items
    // marked as unbundled are those that were unbundled and those that could not be downloaded
    ensures Within(applied + lost, |items|) && Marked(items, applied + lost) && Witnessed(applied, lost, download, unbundle)
    ensures configured ==> NewerThan(items, applied, configuredToken)
    // nothing happens when the newest bundle is not newer than the configured token
    ensures items == [] || (configured && items[0].token <= configuredToken) ==> !failed && stored == -1 && applied == lost == {}
    // the walk succeeds by coming back to the top, when all it passed is marked
    ensures items != [] && !(configured && items[0].token <= configuredToken) && !failed ==>
      && 0 <= deepest < |items| && (forall i: nat | i <= deepest :: i in applied + lost)
      && applied != {} && LargestToken(items, applied, stored) && (configured ==> stored > configuredToken)
    // it fails exactly when the walk stops inside the list, at a bundle that is too old or is none, or behind it, having tried all
    ensures failed ==> stored == -1
    ensures items != [] && !(configured && items[0].token <= configuredToken) ==>
      && (failed <==> end >= 0)
      && Touched(items, old(Files(items)), seen)
      && Stopped(items, if configured then configuredToken else 0, download, end, old(Files(items)), seen)
    // it succeeds when downloads work and bundles can be unbundled from the oldest to the newest
    ensures items != [] && InOrder(|items|, download, unbundle) && (forall b | b in items :: b.token > if configured then configuredToken else 0) ==>
      !failed && lost == {} && stored == items[0].token
  {
    hide LargestToken, NewerThan, WalkOk, InOrder;
    failed, stored, applied, lost, deepest, end, seen := false, -1, {}, {}, -1, -1, {};
    assert forall i | 0 <= i < |items| :: items[i] in items;
    NothingYet(items);
    if items == [] {
      return;
    }
    var maxToken := 0;
    if configured {
      maxToken := configuredToken;
      if items[0].token <= maxToken {
        return;
      }
    }
    var cur, newMaxToken, w, visited := WalkBundles(items, maxToken, download, unbundle);
    WalkBounds(items, maxToken, w);
    applied, lost, deepest, end, seen := w.applied, w.lost, w.deepest, cur, visited;
    if cur < 0 {
      BackAtTheTop(items, maxToken, w);
      stored := newMaxToken;
      if lost == {} {
        NewestIsStored(items, applied, stored);
      }
    }
    failed := cur >= 0;
  }

  // ---------- unbundling everything that can be ----------

  /** More objects never keep a bundle from being unbundled. */
  ghost predicate Monotone(ok: (set<nat>, nat) -> bool) {
    forall s, t, i | s <= t && ok(s, i) :: ok(t, i)
  }

  /** The bundles are unbundled one after the other, each on top of the ones before it. */
  ghost predicate Order(order: seq<nat>, from: set<nat>, present: set<nat>, ok: (set<nat>, nat) -> bool)
  {
    order == [] || (order[0] in present - from && ok(from, order[0]) && Order(order[1..], from + {order[0]}, present, ok))
  }

  ghost function Reached(order: seq<nat>): set<nat> {
    set i | i in order
  }

  /** attempt_unbundle for one bundle. */
  method AttemptUnbundle(info: Bundle, i: nat, ok: (set<nat>, nat) -> bool, state: set<nat>) returns (stop: bool)
    modifies info`unbundled
    ensures stop == (info.file && !old(info.unbundled) && ok(state, i))
    ensures info.unbundled == (old(info.unbundled) || stop)
  {
    if !info.file || info.unbundled {
      return false;
    }
    if ok(state, i) {
      info.unbundled := true;
      return true;
    }
    return false;
  }

  /** No bundle that is left can be unbundled. */
  ghost predicate Stuck(present: set<nat>, done: set<nat>, ok: (set<nat>, nat) -> bool) {
    forall i | i in present && i !in done :: !ok(done, i)
  }

  /** unbundle_all_bundles: `ok` answers whether a bundle can be unbundled on top of those already unbundled. */
  method UnbundleAll(items: seq<Bundle>, ok: (set<nat>, nat) -> bool, ghost present: set<nat>) returns (ghost done: set<nat>, ghost order: seq<nat>)
    requires Distinct(items) && forall i | 0 <= i < |items| :: !items[i].unbundled && (items[i].file <==> i in present)
    requires Within(present, |items|)
    modifies items
    ensures Within(done, |items|) && Marked(items, done) && done <= present && Stuck(present, done, ok)
    ensures done == Reached(order) && Order(order, {}, present, ok)
  {
    hide Order, Reached, Left;
    done, order := {}, [];
    var state: set<nat> := {};
    EmptyOrder(present, ok);
    var again := true;
    while again
      invariant Within(done, |items|) && Marked(items, done) && done <= present && state == done
      invariant forall i | 0 <= i < |items| :: items[i].file == old(items[i].file)
      invariant done == Reached(order) && Order(order, {}, present, ok)
      invariant !again ==> Stuck(present, done, ok)
      decreases Left(done, |items|), again
    {
      ghost var before := done;
      again := false;
      var i := 0;
      while i < |items| && !again
        invariant 0 <= i <= |items| && state == done && Within(done, |items|) && Marked(items, done) && done <= present
        invariant forall j | 0 <= j < |items| :: items[j].file == old(items[j].file)
        invariant Left(done, |items|) <= Left(before, |items|) && (again ==> Left(done, |items|) < Left(before, |items|))
        invariant forall j | 0 <= j < i && j in present && j !in done && !again :: !ok(done, j)
        invariant done == Reached(order) && Order(order, {}, present, ok)
      {
        again := AttemptUnbundle(items[i], i, ok, state);
        if again {
          Shrinks(done, i, |items|);
          assert {} + Reached(order) == done;
          MoreOrder(order, {}, present, ok, i);
          order := order + [i];
          done, state := done + {i}, state + {i};
        }
        i := i + 1;
      }
    }
  }

  lemma EmptyOrder(present: set<nat>, ok: (set<nat>, nat) -> bool)
    ensures Order([], {}, present, ok) && Reached([]) == {}
  {
  }

  lemma {:induction false} MoreOrder(order: seq<nat>, from: set<nat>, present: set<nat>, ok: (set<nat>, nat) -> bool, i: nat)
    requires Order(order, from, present, ok) && i in present - from - Reached(order) && ok(from + Reached(order), i)
    ensures Order(order + [i], from, present, ok) && Reached(order + [i]) == Reached(order) + {i}
  {
    if order == [] {
      assert from + Reached([]) == from;
      assert (order + [i])[1..] == [];
    } else {
      assert (order + [i])[1..] == order[1..] + [i];
      assert order == [order[0]] + order[1..];
      assert from + {order[0]} + Reached(order[1..]) == from + Reached(order);
      MoreOrder(order[1..], from + {order[0]}, present, ok, i);
    }
  }

  /** Where nothing more can be unbundled, every other order of unbundling has got no further. */
  lemma {:induction false} NoOrderGoesFurther(order: seq<nat>, from: set<nat>, present: set<nat>, done: set<nat>, ok: (set<nat>, nat) -> bool)
    requires Monotone(ok) && Order(order, from, present, ok) && from <= done && Stuck(present, done, ok)
    ensures Reached(order) <= done
  {
    if order != [] {
      assert order[0] in done;
      NoOrderGoesFurther(order[1..], from + {order[0]}, present, done, ok);
    }
  }
}
