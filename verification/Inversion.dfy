/** Inverting a downward adjacency (`invert_adj`): although the inverted map is filled in an arbitrary order,
    the result is determined by the adjacency alone. */
module Inversion {
  import opened Align
  import opened Containers
  import opened Graphs

  // ----- inverting a map with atomic counters -----

  ghost predicate IsMap(a2b: seq<nat>, nb: nat) {
    forall a :: 0 <= a < |a2b| ==> a2b[a] < nb
  }

  predicate IsIn(a2b: seq<nat>, b: nat, a: nat) {
    a < |a2b| && a2b[a] == b
  }

  ghost function Bucket(a2b: seq<nat>, b: nat, n: nat): set<nat> {
    set a: nat | a < n && IsIn(a2b, b, a)
  }

  ghost predicate IsDegree(a2b: seq<nat>, degrees: seq<nat>, b: nat, n: nat) {
    b < |degrees| ==> degrees[b] == |Bucket(a2b, b, n)|
  }

  lemma BucketGrows(a2b: seq<nat>, b: nat, n: nat)
    requires n < |a2b|
    ensures |Bucket(a2b, b, n + 1)| == |Bucket(a2b, b, n)| + if a2b[n] == b then 1 else 0
  {
    if a2b[n] == b {
      assert Bucket(a2b, b, n + 1) == Bucket(a2b, b, n) + {n};
    } else {
      assert Bucket(a2b, b, n + 1) == Bucket(a2b, b, n);
    }
  }

  method CountDegrees(a2b: seq<nat>, nb: nat) returns (degrees: seq<nat>)
    requires IsMap(a2b, nb)
    ensures |degrees| == nb && forall b: nat :: IsDegree(a2b, degrees, b, |a2b|)
    ensures SumOf(degrees) == |a2b|
  {
    degrees := seq(nb, _ => 0);
    forall b: nat
      ensures IsDegree(a2b, degrees, b, 0)
    {
      assert Bucket(a2b, b, 0) == {};
    }
    SumOfZeros(nb);
    for a := 0 to |a2b|
      invariant |degrees| == nb && SumOf(degrees) == a
      invariant forall b: nat :: IsDegree(a2b, degrees, b, a)
    {
      ghost var was := degrees;
      var b := a2b[a];
      degrees := degrees[b := degrees[b] + 1];
      SumOfUpdated(was, b, was[b] + 1);
      ghost var next: nat := a + 1;
      forall c: nat
        ensures IsDegree(a2b, degrees, c, next)
      {
        assert IsDegree(a2b, was, c, a);
        BucketGrows(a2b, c, a);
      }
    }
  }

  lemma SumOfZeros(n: nat)
    ensures SumOf(seq(n, _ => 0)) == 0
  {
    if n > 0 {
      assert seq(n, _ => 0)[..n - 1] == seq(n - 1, _ => 0);
      SumOfZeros(n - 1);
    }
  }

  lemma SumOfUpdated(s: seq<nat>, i: nat, v: nat)
    requires i < |s|
    ensures SumOf(s[i := v]) == SumOf(s) - s[i] + v
    decreases |s|
  {
    var n := |s| - 1;
    if i < n {
      SumOfUpdated(s[..n], i, v);
      assert s[i := v][..n] == s[..n][i := v];
    } else {
      assert s[i := v][..n] == s[..n];
    }
  }

  /** What of a bucket has been written. */
  ghost function DoneIn(a2b: seq<nat>, b: nat, done: set<nat>): set<nat> {
    set a | a in done && a < |a2b| && a2b[a] == b
  }

  /** Every bucket holds exactly its own numbers, each once. */
  ghost predicate InvertsMap(g: Graph, a2b: seq<nat>, nb: nat) {
    && AreOffsets(g.a2ab, nb, |a2b|) && |g.ab2b| == |a2b|
    && (forall b: nat, p: nat {:trigger HasBucket(g, a2b, b, p)} :: HasBucket(g, a2b, b, p))
    && (forall p, q :: 0 <= p < q < |g.ab2b| ==> g.ab2b[p] != g.ab2b[q])
    && (forall a :: 0 <= a < |a2b| ==> a in g.ab2b)
  }

  ghost predicate HasBucket(g: Graph, a2b: seq<nat>, b: nat, p: nat) {
    b + 1 < |g.a2ab| && g.a2ab[b] <= p < g.a2ab[b + 1] && p < |g.ab2b| ==> g.ab2b[p] < |a2b| && a2b[g.ab2b[p]] == b
  }

  /** The state while the buckets are filled: `place` says where each number was put. */
  ghost predicate IsFilling(a2b: seq<nat>, nb: nat, offsets: seq<nat>, positions: seq<nat>, ba2a: seq<nat>,
      done: set<nat>, place: map<nat, nat>)
  {
    && |positions| == nb && |ba2a| == |a2b| && place.Keys == done && AreOffsets(offsets, nb, |a2b|)
    && (forall b: nat {:trigger IsInRoom(offsets, positions, b)} :: IsInRoom(offsets, positions, b))
    && (forall a :: a in done ==> a < |a2b|)
    && (forall b: nat {:trigger IsCounted(a2b, positions, done, b)} :: IsCounted(a2b, positions, done, b))
    && (forall a :: a in done ==> IsPlaced(a2b, offsets, positions, ba2a, place, a))
    && (forall b: nat, p: nat {:trigger IsWritten(offsets, positions, b, p)} ::
          b < nb && IsWritten(offsets, positions, b, p) ==> p < |ba2a| && ba2a[p] in done && place[ba2a[p]] == p)
  }

  ghost predicate IsCounted(a2b: seq<nat>, positions: seq<nat>, done: set<nat>, b: nat) {
    b < |positions| ==> positions[b] == |DoneIn(a2b, b, done)|
  }

  ghost predicate IsWritten(offsets: seq<nat>, positions: seq<nat>, b: nat, p: nat) {
    b < |positions| && b < |offsets| && offsets[b] <= p < offsets[b] + positions[b]
  }

  ghost predicate IsInRoom(offsets: seq<nat>, positions: seq<nat>, b: nat) {
    b < |positions| && b + 1 < |offsets| ==> offsets[b] + positions[b] <= offsets[b + 1]
  }

  ghost predicate IsPlaced(a2b: seq<nat>, offsets: seq<nat>, positions: seq<nat>, ba2a: seq<nat>, place: map<nat, nat>,
      a: nat)
  {
    && a in place && a < |a2b| && place[a] < |ba2a| && ba2a[place[a]] == a
    && IsWritten(offsets, positions, a2b[a], place[a])
  }

  /** There is room left for a number that is not yet written. */
  lemma HasRoom(a2b: seq<nat>, nb: nat, degrees: seq<nat>, offsets: seq<nat>, positions: seq<nat>,
      done: set<nat>, a: nat, total: nat)
    requires IsMap(a2b, nb) && a < |a2b| && a !in done && |degrees| == nb == |positions| && total == |a2b|
    requires IsDegree(a2b, degrees, a2b[a], |a2b|) && IsCounted(a2b, positions, done, a2b[a])
    requires AreOffsets(offsets, nb, total) && IsScanStep(degrees, offsets, a2b[a])
    ensures offsets[a2b[a]] + positions[a2b[a]] < offsets[a2b[a] + 1] <= total
  {
    var b := a2b[a];
    var all, some := Bucket(a2b, b, |a2b|), DoneIn(a2b, b, done);
    forall x | x in some
      ensures x in all
    {
      assert IsIn(a2b, b, x);
    }
    assert IsIn(a2b, b, a);
    assert a in all && a !in some;
    ProperSubset(some, all, a);
    OffsetsAscend(offsets, nb, total, b, b + 1);
  }

  lemma ProperSubset(s: set<nat>, t: set<nat>, x: nat)
    requires s <= t && x in t && x !in s
    ensures |s| < |t|
  {
    SubsetSize(s, t - {x});
  }

  lemma SubsetSize(s: set<nat>, t: set<nat>)
    requires s <= t
    ensures |s| <= |t|
    decreases |s|
  {
    if s != {} {
      assert exists x :: x in s;
      var x :| x in s;
      SubsetSize(s - {x}, t - {x});
    }
  }

  lemma BucketsAreApart(offsets: seq<nat>, nb: nat, total: nat, b: nat, c: nat)
    requires AreOffsets(offsets, nb, total) && b < c < nb
    ensures offsets[b + 1] <= offsets[c]
  {
    OffsetsAscend(offsets, nb, total, b + 1, c);
  }

  /** A place is in one bucket only. */
  lemma OneBucket(
      offsets: seq<nat>, positions: seq<nat>, nb: nat, total: nat, b: nat, c: nat, p: nat)
    requires AreOffsets(offsets, nb, total) && |positions| == nb && b < nb && c < nb
    requires offsets[b] <= p < offsets[b + 1] && offsets[c] <= p < offsets[c + 1]
    ensures b == c
  {
    if b < c {
      BucketsAreApart(offsets, nb, total, b, c);
    } else if c < b {
      BucketsAreApart(offsets, nb, total, c, b);
    }
  }

  lemma DoneGrows(a2b: seq<nat>, b: nat, done: set<nat>, a: nat)
    requires a < |a2b| && a !in done
    ensures |DoneIn(a2b, b, done + {a})| == |DoneIn(a2b, b, done)| + if a2b[a] == b then 1 else 0
  {
    if a2b[a] == b {
      assert DoneIn(a2b, b, done + {a}) == DoneIn(a2b, b, done) + {a};
    } else {
      assert DoneIn(a2b, b, done + {a}) == DoneIn(a2b, b, done);
    }
  }

  /** Writing one more number at the next place of its bucket. */
  lemma FillStep(a2b: seq<nat>, nb: nat, offsets: seq<nat>, positions: seq<nat>, ba2a: seq<nat>,
      done: set<nat>, place: map<nat, nat>, a: nat, p: nat)
    requires IsMap(a2b, nb) && IsFilling(a2b, nb, offsets, positions, ba2a, done, place)
    requires a < |a2b| && a !in done && p == offsets[a2b[a]] + positions[a2b[a]] < offsets[a2b[a] + 1] <= |a2b|
    ensures IsFilling(a2b, nb, offsets, positions[a2b[a] := positions[a2b[a]] + 1], ba2a[p := a],
      done + {a}, place[a := p])
  {
    var b := a2b[a];
    var positions', ba2a', done', place' := positions[b := positions[b] + 1], ba2a[p := a], done + {a}, place[a := p];
    forall c: nat
      ensures IsInRoom(offsets, positions', c) && IsCounted(a2b, positions', done', c)
    {
      assert IsInRoom(offsets, positions, c) && IsCounted(a2b, positions, done, c);
      DoneGrows(a2b, c, done, a);
    }
    forall c: nat, q: nat | c < nb && IsWritten(offsets, positions', c, q)
      ensures q < |ba2a'| && ba2a'[q] in done' && place'[ba2a'[q]] == q
    {
      assert IsInRoom(offsets, positions', c);
      if q == p {
        assert ba2a'[q] == a;
      } else {
        assert c == b ==> q < p;
        assert IsWritten(offsets, positions, c, q);
      }
    }
    forall x | x in done'
      ensures IsPlaced(a2b, offsets, positions', ba2a', place', x)
    {
      if x != a {
        assert IsPlaced(a2b, offsets, positions, ba2a, place, x);
        PlacesDiffer(a2b, nb, offsets, positions, ba2a, done, place, b, p, x);
      }
    }
  }

  lemma PlacesDiffer(a2b: seq<nat>, nb: nat, offsets: seq<nat>, positions: seq<nat>, ba2a: seq<nat>,
      done: set<nat>, place: map<nat, nat>, b: nat, p: nat, x: nat)
    requires IsMap(a2b, nb) && IsFilling(a2b, nb, offsets, positions, ba2a, done, place) && x in done
    requires b < nb && p == offsets[b] + positions[b] < offsets[b + 1] <= |a2b|
    ensures x in place && place[x] != p
  {
    assert IsPlaced(a2b, offsets, positions, ba2a, place, x);
    assert IsInRoom(offsets, positions, a2b[x]);
    if place[x] == p {
      OneBucket(offsets, positions, nb, |a2b|, b, a2b[x], p);
    }
  }

  /** The bucket of a place. */
  lemma BucketOf(offsets: seq<nat>, nb: nat, total: nat, p: nat, n: nat) returns (b: nat)
    requires AreOffsets(offsets, nb, total) && n <= nb && p < offsets[n]
    ensures b < n && offsets[b] <= p < offsets[b + 1]
  {
    if offsets[n - 1] <= p {
      b := n - 1;
    } else {
      b := BucketOf(offsets, nb, total, p, n - 1);
    }
  }

  lemma FilledInverts(a2b: seq<nat>, nb: nat, degrees: seq<nat>, offsets: seq<nat>,
      positions: seq<nat>, ba2a: seq<nat>, done: set<nat>, place: map<nat, nat>)
    requires IsMap(a2b, nb) && IsFilling(a2b, nb, offsets, positions, ba2a, done, place)
    requires |degrees| == nb && forall b: nat :: IsDegree(a2b, degrees, b, |a2b|)
    requires forall i {:trigger IsScanStep(degrees, offsets, i)} :: IsScanStep(degrees, offsets, i)
    requires forall a: nat :: a < |a2b| ==> a in done
    ensures InvertsMap(Graph(offsets, ba2a), a2b, nb)
  {
    var g := Graph(offsets, ba2a);
    forall b: nat, p: nat
      ensures HasBucket(g, a2b, b, p)
    {
      if b < nb && offsets[b] <= p < offsets[b + 1] {
        FilledAt(a2b, nb, degrees, offsets, positions, ba2a, done, place, b, p);
      }
    }
    forall p, q | 0 <= p < q < |ba2a|
      ensures ba2a[p] != ba2a[q]
    {
      var b := BucketOf(offsets, nb, |a2b|, p, nb);
      var c := BucketOf(offsets, nb, |a2b|, q, nb);
      FilledAt(a2b, nb, degrees, offsets, positions, ba2a, done, place, b, p);
      FilledAt(a2b, nb, degrees, offsets, positions, ba2a, done, place, c, q);
    }
    forall a | 0 <= a < |a2b|
      ensures a in ba2a
    {
      assert IsPlaced(a2b, offsets, positions, ba2a, place, a);
    }
  }

  lemma FilledAt(a2b: seq<nat>, nb: nat, degrees: seq<nat>, offsets: seq<nat>,
      positions: seq<nat>, ba2a: seq<nat>, done: set<nat>, place: map<nat, nat>, b: nat, p: nat)
    requires IsMap(a2b, nb) && IsFilling(a2b, nb, offsets, positions, ba2a, done, place)
    requires |degrees| == nb && b < nb && IsDegree(a2b, degrees, b, |a2b|) && IsScanStep(degrees, offsets, b)
    requires forall a: nat :: a < |a2b| ==> a in done
    requires offsets[b] <= p < offsets[b + 1]
    ensures p < |ba2a| && ba2a[p] in done && ba2a[p] in place && place[ba2a[p]] == p && a2b[ba2a[p]] == b
  {
    assert IsCounted(a2b, positions, done, b);
    AllIsWritten(a2b, nb, degrees, offsets, positions, done, b, p);
    var x := ba2a[p];
    assert IsPlaced(a2b, offsets, positions, ba2a, place, x);
    assert IsInRoom(offsets, positions, a2b[x]);
    OneBucket(offsets, positions, nb, |a2b|, b, a2b[x], p);
  }

  lemma AllIsWritten(a2b: seq<nat>, nb: nat, degrees: seq<nat>, offsets: seq<nat>,
      positions: seq<nat>, done: set<nat>, b: nat, p: nat)
    requires |degrees| == nb == |positions| && |offsets| == nb + 1 && b < nb && IsDegree(a2b, degrees, b, |a2b|)
    requires IsScanStep(degrees, offsets, b) && IsCounted(a2b, positions, done, b)
    requires forall a: nat :: a < |a2b| ==> a in done
    requires offsets[b] <= p < offsets[b + 1]
    ensures IsWritten(offsets, positions, b, p)
  {
    forall x: nat
      ensures x in Bucket(a2b, b, |a2b|) <==> x in DoneIn(a2b, b, done)
    {
      assert x in Bucket(a2b, b, |a2b|) <==> x < |a2b| && IsIn(a2b, b, x);
    }
    assert Bucket(a2b, b, |a2b|) == DoneIn(a2b, b, done);
  }

  lemma FillingStarts(a2b: seq<nat>, nb: nat, offsets: seq<nat>, positions: seq<nat>, ba2a: seq<nat>)
    requires AreOffsets(offsets, nb, |a2b|) && |ba2a| == |a2b|
    requires |positions| == nb && forall b :: 0 <= b < nb ==> positions[b] == 0
    ensures IsFilling(a2b, nb, offsets, positions, ba2a, {}, map[])
  {
    forall b: nat
      ensures IsInRoom(offsets, positions, b) && IsCounted(a2b, positions, {}, b)
    {
      assert IsOffsetStep(offsets, b);
      assert DoneIn(a2b, b, {}) == {};
    }
  }

  /** Puts one number into its bucket. */
  method FillNext(a2b: seq<nat>, nb: nat, ghost degrees: seq<nat>, offsets: seq<nat>, positions: seq<nat>,
      ba2a: seq<nat>, ghost done: set<nat>, ghost place: map<nat, nat>, a: nat)
    returns (positions': seq<nat>, ba2a': seq<nat>, ghost place': map<nat, nat>)
    requires IsMap(a2b, nb) && IsFilling(a2b, nb, offsets, positions, ba2a, done, place)
    requires |degrees| == nb && forall b: nat :: IsDegree(a2b, degrees, b, |a2b|)
    requires forall i {:trigger IsScanStep(degrees, offsets, i)} :: IsScanStep(degrees, offsets, i)
    requires a < |a2b| && a !in done
    ensures IsFilling(a2b, nb, offsets, positions', ba2a', done + {a}, place')
  {
    var b := a2b[a];
    var p := offsets[b] + positions[b];
    assert IsDegree(a2b, degrees, b, |a2b|) && IsCounted(a2b, positions, done, b) && IsScanStep(degrees, offsets, b);
    HasRoom(a2b, nb, degrees, offsets, positions, done, a, |a2b|);
    FillStep(a2b, nb, offsets, positions, ba2a, done, place, a, p);
    positions', ba2a', place' := positions[b := positions[b] + 1], ba2a[p := a], place[a := p];
  }

  ghost predicate AreLeft(a2b: seq<nat>, todo: set<nat>, done: set<nat>) {
    && (forall a: nat :: a < |a2b| ==> (a in done) != (a in todo))
    && (forall a :: a in todo ==> a < |a2b|)
  }

  lemma AllAreLeft(a2b: seq<nat>, todo: set<nat>)
    requires forall a: nat :: a in todo <==> a < |a2b| && IsIn(a2b, a2b[a], a)
    ensures AreLeft(a2b, todo, {})
  {
    forall a: nat | a < |a2b|
      ensures a in todo
    {
      assert IsIn(a2b, a2b[a], a);
    }
  }

  /** Inverts a map; the order in which the numbers are put into their buckets is arbitrary. */
  method InvertMapByAtomics(a2b: seq<nat>, nb: nat) returns (g: Graph)
    requires IsMap(a2b, nb)
    ensures InvertsMap(g, a2b, nb)
  {
    var degrees := CountDegrees(a2b, nb);
    var offsets := OffsetScan(degrees);
    var ba2a: seq<nat> := seq(|a2b|, _ => 0);
    var positions: seq<nat> := seq(nb, _ => 0);
    var todo: set<nat> := set a: nat | a < |a2b| && IsIn(a2b, a2b[a], a);
    ghost var done: set<nat> := {};
    ghost var place: map<nat, nat> := map[];
    FillingStarts(a2b, nb, offsets, positions, ba2a);
    AllAreLeft(a2b, todo);
    while todo != {}
      invariant IsFilling(a2b, nb, offsets, positions, ba2a, done, place)
      invariant AreLeft(a2b, todo, done)
      decreases |todo|
    {
      HasNumber(todo);
      var a :| a in todo;
      positions, ba2a, place := FillNext(a2b, nb, degrees, offsets, positions, ba2a, done, place, a);
      todo, done := todo - {a}, done + {a};
    }
    FilledInverts(a2b, nb, degrees, offsets, positions, ba2a, done, place);
    g := Graph(offsets, ba2a);
  }

  lemma HasNumber(s: set<nat>)
    requires s != {}
    ensures exists x :: x in s
  {
  }

  // ----- upward adjacencies -----

  /** For each lower entity its higher ones, and how they use it. */
  datatype Adj = Adj(a2ab: seq<nat>, ab2b: seq<nat>, codes: seq<nat>)

  /** The downward adjacency: slot `which` of high entity `h` is at `h * nlowsPerHigh + which`. */
  datatype Down = Down(lows: seq<nat>, codes: seq<nat>, nlowsPerHigh: nat) {
    ghost predicate Valid(nlows: nat) {
      && nlowsPerHigh > 0 && IsMap(lows, nlows)
      && (codes == [] || |codes| == |lows|)
    }

    /** The code of a slot, seen from below. */
    function CodeOf(slot: nat): nat
      requires nlowsPerHigh > 0
    {
      if slot < |codes| then MakeCode(CodeIsFlipped(codes[slot]), CodeRotation(codes[slot]), slot % nlowsPerHigh)
      else MakeCode(false, 0, slot % nlowsPerHigh)
    }

    function HighOf(slot: nat): nat
      requires nlowsPerHigh > 0
    {
      slot / nlowsPerHigh
    }

    /** No high entity uses a low one twice. */
    ghost predicate UsesOnce() {
      nlowsPerHigh > 0 &&
      forall s, t :: 0 <= s < t < |lows| && HighOf(s) == HighOf(t) ==> lows[s] != lows[t]
    }
  }

  /** Each place of the upward adjacency is for one slot of the downward one, and each slot has a place. */
  ghost predicate IsSlotting(down: Down, nlows: nat, a2ab: seq<nat>, slots: seq<nat>) {
    InvertsMap(Graph(a2ab, slots), down.lows, nlows)
  }

  ghost predicate IsInStep(down: Down, slots: seq<nat>, highs: seq<nat>, codes: seq<nat>) {
    && down.nlowsPerHigh > 0 && |highs| == |slots| == |codes|
    && forall p :: 0 <= p < |slots| ==> highs[p] == down.HighOf(slots[p]) && codes[p] == down.CodeOf(slots[p])
  }

  ghost predicate IsSortedRange(highs: seq<nat>, begin: nat, end: nat) {
    end <= |highs| && forall p, q :: begin <= p < q < end ==> highs[p] <= highs[q]
  }

  /** The inverse of a downward adjacency, highs in order. */
  ghost predicate IsUpward(down: Down, nlows: nat, slots: seq<nat>, up: Adj) {
    && IsSlotting(down, nlows, up.a2ab, slots) && IsInStep(down, slots, up.ab2b, up.codes)
    && forall l: nat {:trigger RowIsSorted(up, l)} :: RowIsSorted(up, l)
  }

  ghost predicate RowIsSorted(up: Adj, l: nat) {
    l + 1 < |up.a2ab| ==> IsSortedRange(up.ab2b, up.a2ab[l], up.a2ab[l + 1])
  }

  method SeparateUpward(down: Down, nlows: nat, l2hl: Graph, lh2h: array<nat>, codes: array<nat>)
    requires down.Valid(nlows) && InvertsMap(l2hl, down.lows, nlows)
    requires lh2h.Length == codes.Length == |l2hl.ab2b| && lh2h != codes
    modifies lh2h, codes
    ensures IsInStep(down, l2hl.ab2b, lh2h[..], codes[..])
  {
    for lh := 0 to |l2hl.ab2b|
      invariant forall p :: 0 <= p < lh ==>
        lh2h[p] == down.HighOf(l2hl.ab2b[p]) && codes[p] == down.CodeOf(l2hl.ab2b[p])
    {
      var hl := l2hl.ab2b[lh];
      lh2h[lh] := down.HighOf(hl);
      codes[lh] := down.CodeOf(hl);
    }
  }

  function Swapped(s: seq<nat>, i: nat, j: nat): seq<nat>
    requires i < |s| && j < |s|
  {
    s[i := s[j]][j := s[i]]
  }

  lemma SwapKeepsSlotting(
      down: Down, nlows: nat, a2ab: seq<nat>, slots: seq<nat>, l: nat, i: nat, j: nat)
    requires IsSlotting(down, nlows, a2ab, slots) && l < nlows
    requires a2ab[l] <= i < a2ab[l + 1] <= |slots| && a2ab[l] <= j < a2ab[l + 1]
    ensures IsSlotting(down, nlows, a2ab, Swapped(slots, i, j))
  {
    var g, g' := Graph(a2ab, slots), Graph(a2ab, Swapped(slots, i, j));
    assert HasBucket(g, down.lows, l, i) && HasBucket(g, down.lows, l, j);
    forall b: nat, p: nat
      ensures HasBucket(g', down.lows, b, p)
    {
      assert HasBucket(g, down.lows, b, p);
      if b < nlows && a2ab[b] <= p < a2ab[b + 1] && (p == i || p == j) {
        SameBucket(a2ab, nlows, |slots|, b, l, p);
      }
    }
    forall a | 0 <= a < |down.lows|
      ensures a in g'.ab2b
    {
      assert a in slots;
      var p :| 0 <= p < |slots| && slots[p] == a;
      assert g'.ab2b[if p == i then j else if p == j then i else p] == a;
    }
  }

  lemma SameBucket(offsets: seq<nat>, nb: nat, total: nat, b: nat, c: nat, p: nat)
    requires AreOffsets(offsets, nb, total) && b < nb && c < nb
    requires offsets[b] <= p < offsets[b + 1] && offsets[c] <= p < offsets[c + 1]
    ensures b == c
  {
    OneBucket(offsets, seq(nb, _ => 0), nb, total, b, c, p);
  }

  /** The place of the least high in the rest of a row. */
  method LeastHigh(lh2h: array<nat>, j: nat, end: nat) returns (kMin: nat)
    requires j < end <= lh2h.Length
    ensures j <= kMin < end && forall q :: j <= q < end ==> lh2h[kMin] <= lh2h[q]
  {
    kMin := j;
    var minH := lh2h[j];
    for k := j + 1 to end
      invariant j <= kMin < end && minH == lh2h[kMin]
      invariant forall q :: j <= q < k ==> minH <= lh2h[q]
    {
      var h := lh2h[k];
      if h < minH {
        kMin, minH := k, h;
      }
    }
  }

  /** The row is sorted up to `j`, and nothing after that belongs before it. */
  ghost predicate IsSelected(highs: seq<nat>, begin: nat, j: nat, end: nat) {
    && begin <= j <= end <= |highs| && IsSortedRange(highs, begin, j)
    && forall p, q :: begin <= p < j <= q < end ==> highs[p] <= highs[q]
  }

  lemma SelectionStep(highs: seq<nat>, begin: nat, j: nat, end: nat, kMin: nat)
    requires IsSelected(highs, begin, j, end) && j <= kMin < end
    requires forall q :: j <= q < end ==> highs[kMin] <= highs[q]
    ensures IsSelected(Swapped(highs, j, kMin), begin, j + 1, end)
  {
    var highs' := Swapped(highs, j, kMin);
    forall p, q | begin <= p < j + 1 && p < q < end
      ensures highs'[p] <= highs'[q]
    {
      if p == j {
        assert highs'[q] == highs[if q == kMin then j else q];
      } else {
        assert highs'[q] == highs[if q == kMin then j else if q == j then kMin else q];
      }
    }
  }

  lemma SwapKeepsStep(down: Down, slots: seq<nat>, highs: seq<nat>, codes: seq<nat>, i: nat, j: nat)
    requires IsInStep(down, slots, highs, codes) && i < |slots| && j < |slots|
    ensures IsInStep(down, Swapped(slots, i, j), Swapped(highs, i, j), Swapped(codes, i, j))
  {
  }

  /** Sorts one row by selection, the codes in step with the highs. */
  method SortRow(
      down: Down, nlows: nat, l2lh: seq<nat>, l: nat, lh2h: array<nat>, codes: array<nat>, ghost slots: seq<nat>)
    returns (ghost slots': seq<nat>)
    requires lh2h != codes && l < nlows && lh2h.Length == codes.Length
    requires IsSlotting(down, nlows, l2lh, slots) && IsInStep(down, slots, lh2h[..], codes[..])
    modifies lh2h, codes
    ensures IsSlotting(down, nlows, l2lh, slots') && IsInStep(down, slots', lh2h[..], codes[..])
    ensures l + 1 < |l2lh| && l2lh[l] <= l2lh[l + 1] <= lh2h.Length && IsSortedRange(lh2h[..], l2lh[l], l2lh[l + 1])
    ensures forall p :: 0 <= p < lh2h.Length && !(l2lh[l] <= p < l2lh[l + 1]) ==> lh2h[p] == old(lh2h[p])
  {
    slots' := slots;
    OffsetsAscend(l2lh, nlows, |slots|, l, l + 1);
    var begin, end := l2lh[l], l2lh[l + 1];
    for j := begin to end
      invariant IsSlotting(down, nlows, l2lh, slots') && IsInStep(down, slots', lh2h[..], codes[..])
      invariant IsSelected(lh2h[..], begin, j, end)
      invariant forall p :: 0 <= p < lh2h.Length && !(begin <= p < end) ==> lh2h[p] == old(lh2h[p])
    {
      var kMin := LeastHigh(lh2h, j, end);
      ghost var highs, cs := lh2h[..], codes[..];
      SelectionStep(highs, begin, j, end, kMin);
      SwapKeepsSlotting(down, nlows, l2lh, slots', l, j, kMin);
      SwapKeepsStep(down, slots', highs, cs, j, kMin);
      lh2h[j], lh2h[kMin] := lh2h[kMin], lh2h[j];
      codes[j], codes[kMin] := codes[kMin], codes[j];
      assert lh2h[..] == Swapped(highs, j, kMin) && codes[..] == Swapped(cs, j, kMin);
      slots' := Swapped(slots', j, kMin);
    }
  }

  ghost predicate RowsAreSorted(up: Adj, n: nat) {
    forall m: nat {:trigger RowIsSorted(up, m)} :: m < n ==> RowIsSorted(up, m)
  }

  method SortByHighIndex(
      down: Down, nlows: nat, l2lh: seq<nat>, lh2h: array<nat>, codes: array<nat>, ghost slots: seq<nat>)
    returns (ghost slots': seq<nat>)
    requires lh2h != codes && lh2h.Length == codes.Length
    requires IsSlotting(down, nlows, l2lh, slots) && IsInStep(down, slots, lh2h[..], codes[..])
    modifies lh2h, codes
    ensures IsUpward(down, nlows, slots', Adj(l2lh, lh2h[..], codes[..]))
  {
    slots' := slots;
    for l := 0 to nlows
      invariant IsSlotting(down, nlows, l2lh, slots') && IsInStep(down, slots', lh2h[..], codes[..])
      invariant RowsAreSorted(Adj(l2lh, lh2h[..], codes[..]), l)
    {
      ghost var was := Adj(l2lh, lh2h[..], codes[..]);
      slots' := SortRow(down, nlows, l2lh, l, lh2h, codes, slots');
      RowsStaySorted(was, nlows, Adj(l2lh, lh2h[..], codes[..]), l);
    }
  }

  lemma RowsStaySorted(was: Adj, nlows: nat, now: Adj, l: nat)
    requires AreOffsets(was.a2ab, nlows, |was.ab2b|) && now.a2ab == was.a2ab && l < nlows && |now.ab2b| == |was.ab2b|
    requires RowsAreSorted(was, l) && RowIsSorted(now, l)
    requires forall p :: 0 <= p < |was.ab2b| && !(was.a2ab[l] <= p < was.a2ab[l + 1]) ==> now.ab2b[p] == was.ab2b[p]
    ensures RowsAreSorted(now, l + 1)
  {
    forall m: nat | m < l + 1
      ensures RowIsSorted(now, m)
    {
      if m < l {
        assert RowIsSorted(was, m);
        OffsetsAscend(was.a2ab, nlows, |was.ab2b|, m + 1, l);
      }
    }
  }

  method InvertAdj(down: Down, nlows: nat) returns (up: Adj, ghost slots: seq<nat>)
    requires down.Valid(nlows)
    ensures IsUpward(down, nlows, slots, up)
  {
    var l2hl := InvertMapByAtomics(down.lows, nlows);
    var lh2h, codes := new nat[|l2hl.ab2b|], new nat[|l2hl.ab2b|];
    SeparateUpward(down, nlows, l2hl, lh2h, codes);
    slots := SortByHighIndex(down, nlows, l2hl.a2ab, lh2h, codes, l2hl.ab2b);
    up := Adj(l2hl.a2ab, lh2h[..], codes[..]);
  }

  // ----- the inverse is unique -----

  /** In a row, the slots are in order: their highs are, and no two have the same. */
  lemma RowIsIncreasing(down: Down, nlows: nat, slots: seq<nat>, up: Adj, l: nat)
    returns (row: seq<nat>)
    requires down.Valid(nlows) && IsUpward(down, nlows, slots, up) && down.UsesOnce() && l < nlows
    ensures up.a2ab[l] <= up.a2ab[l + 1] <= |slots| && row == slots[up.a2ab[l]..up.a2ab[l + 1]]
    ensures StrictlyIncreasing(row)
    ensures forall s: nat :: s in row <==> IsIn(down.lows, l, s)
  {
    OffsetsAscend(up.a2ab, nlows, |slots|, l, l + 1);
    var begin, end := up.a2ab[l], up.a2ab[l + 1];
    row := slots[begin..end];
    assert RowIsSorted(up, l);
    forall i, j | 0 <= i < j < |row|
      ensures row[i] < row[j]
    {
      var p, q := begin + i, begin + j;
      assert HasBucket(Graph(up.a2ab, slots), down.lows, l, p) && HasBucket(Graph(up.a2ab, slots), down.lows, l, q);
      assert up.ab2b[p] <= up.ab2b[q] && slots[p] != slots[q];
      assert down.HighOf(slots[p]) != down.HighOf(slots[q]);
      SlotsFollowHighs(down.nlowsPerHigh, slots[p], slots[q]);
    }
    forall s: nat
      ensures s in row <==> IsIn(down.lows, l, s)
    {
      RowHasSlot(down, nlows, slots, up.a2ab, l, s);
    }
  }

  lemma SlotsFollowHighs(n: nat, s: nat, t: nat)
    requires n > 0 && s / n < t / n
    ensures s < t
  {
    if t <= s {
      QuotientGrows(n, t, s);
      assert false;
    }
  }

  lemma QuotientGrows(n: nat, t: nat, s: nat)
    requires n > 0 && t <= s
    ensures t / n <= s / n
  {
    var a, b := t / n, s / n;
    var d := a - b;
    assert t == n * a + t % n && s == n * b + s % n;
    assert n * d == n * a - n * b;
    assert d >= 1 ==> n * d >= n;
  }

  lemma RowHasSlot(down: Down, nlows: nat, slots: seq<nat>, a2ab: seq<nat>, l: nat, s: nat)
    requires IsMap(down.lows, nlows) && IsSlotting(down, nlows, a2ab, slots) && l < nlows
    ensures a2ab[l] <= a2ab[l + 1] <= |slots|
    ensures s in slots[a2ab[l]..a2ab[l + 1]] <==> IsIn(down.lows, l, s)
  {
    OffsetsAscend(a2ab, nlows, |slots|, l, l + 1);
    var g, row := Graph(a2ab, slots), slots[a2ab[l]..a2ab[l + 1]];
    if s in row {
      var i :| 0 <= i < |row| && row[i] == s;
      assert HasBucket(g, down.lows, l, a2ab[l] + i);
    }
    if IsIn(down.lows, l, s) {
      assert s in slots;
      var p :| 0 <= p < |slots| && slots[p] == s;
      var b := BucketOf(a2ab, nlows, |slots|, p, nlows);
      assert HasBucket(g, down.lows, b, p);
      assert row[p - a2ab[l]] == s;
    }
  }

  /** Two fillings in different orders give the same rows. */
  lemma RowsAgree(
      down: Down, nlows: nat, slots1: seq<nat>, up1: Adj, slots2: seq<nat>, up2: Adj, l: nat)
    requires down.Valid(nlows) && down.UsesOnce() && l <= nlows
    requires IsUpward(down, nlows, slots1, up1) && IsUpward(down, nlows, slots2, up2)
    ensures up1.a2ab[l] == up2.a2ab[l] <= |slots1| && |slots1| == |slots2|
    ensures slots1[..up1.a2ab[l]] == slots2[..up1.a2ab[l]]
  {
    if l > 0 {
      RowsAgree(down, nlows, slots1, up1, slots2, up2, l - 1);
      var row1 := RowIsIncreasing(down, nlows, slots1, up1, l - 1);
      var row2 := RowIsIncreasing(down, nlows, slots2, up2, l - 1);
      SameRows(row1, row2);
      var begin, end := up1.a2ab[l - 1], up1.a2ab[l];
      assert slots1[..end] == slots1[..begin] + row1;
      assert slots2[..end] == slots2[..begin] + row2;
    }
  }

  lemma SameRows(row1: seq<nat>, row2: seq<nat>)
    requires StrictlyIncreasing(row1) && StrictlyIncreasing(row2)
    requires forall s: nat :: s in row1 <==> s in row2
    ensures row1 == row2
  {
    forall x | x in Elements(row1)
      ensures x in Elements(row2)
    {
      assert x in row1 && x in row2;
    }
    forall x | x in Elements(row2)
      ensures x in Elements(row1)
    {
      assert x in row2 && x in row1;
    }
    IncreasingSeqsAreEqual(row1, row2);
  }

  /** The upward adjacency does not depend on the order in which the buckets were filled. */
  lemma UpwardIsUnique(
      down: Down, nlows: nat, slots1: seq<nat>, up1: Adj, slots2: seq<nat>, up2: Adj)
    requires down.Valid(nlows) && down.UsesOnce()
    requires IsUpward(down, nlows, slots1, up1) && IsUpward(down, nlows, slots2, up2)
    ensures up1 == up2 && slots1 == slots2
  {
    RowsAgree(down, nlows, slots1, up1, slots2, up2, nlows);
    assert slots1[..|slots1|] == slots1 && slots2[..|slots1|] == slots2;
    forall l | 0 <= l <= nlows
      ensures up1.a2ab[l] == up2.a2ab[l]
    {
      RowsAgree(down, nlows, slots1, up1, slots2, up2, l);
    }
    assert up1.a2ab == up2.a2ab && up1.ab2b == up2.ab2b && up1.codes == up2.codes;
  }

  /** A low entity has a high one, with a code, exactly if a slot of the high one has it. */
  ghost predicate HasUp(up: Adj, l: nat, h: nat, code: nat) {
    && l + 1 < |up.a2ab|
    && exists p ::
      && up.a2ab[l] <= p < up.a2ab[l + 1] && p < |up.ab2b| && p < |up.codes|
      && up.ab2b[p] == h && up.codes[p] == code
  }

  lemma UpwardIsExact(down: Down, nlows: nat, slots: seq<nat>, up: Adj, l: nat, h: nat, code: nat)
    requires down.Valid(nlows) && IsUpward(down, nlows, slots, up) && l < nlows
    ensures HasUp(up, l, h, code) <==>
      exists s: nat :: s < |down.lows| && down.lows[s] == l && down.HighOf(s) == h && down.CodeOf(s) == code
  {
    if HasUp(up, l, h, code) {
      var p :| up.a2ab[l] <= p < up.a2ab[l + 1] && p < |up.ab2b| && p < |up.codes|
        && up.ab2b[p] == h && up.codes[p] == code;
      assert HasBucket(Graph(up.a2ab, slots), down.lows, l, p);
      assert slots[p] < |down.lows|;
    }
    if s: nat :| s < |down.lows| && down.lows[s] == l && down.HighOf(s) == h && down.CodeOf(s) == code {
      RowHasSlot(down, nlows, slots, up.a2ab, l, s);
      assert IsIn(down.lows, l, s);
      var row := slots[up.a2ab[l]..up.a2ab[l + 1]];
      var i :| 0 <= i < |row| && row[i] == s;
      assert slots[up.a2ab[l] + i] == s;
    }
  }
}
