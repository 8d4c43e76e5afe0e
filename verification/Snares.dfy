/** Where on the lanes the check in `deal_with_tests_failed` can fail: once markers have moved up, the address that
    is traced is no longer next to the top of the lane. */
module Snares {
  import opened Containers
  import opened Lanes
  import opened LaneStates
  import opened Pushers

  /** Lanes go on from `p` to `u`, which is another address and not an accepting one. */
  ghost predicate IsProng(lg: LaneGraph, p: nat, u: nat)
    requires lg.Valid()
  {
    Continues(lg, p, u) && u != p && u < |lg.og| && lg.base[u] == {}
  }

  ghost predicate IsFork(lg: LaneGraph, p: nat)
    requires lg.Valid()
  {
    exists u: nat, v: nat :: u != v && IsProng(lg, p, u) && IsProng(lg, p, v)
  }

  /** The lane from `z` over `c` comes back to `z`, and it comes past a fork. */
  ghost predicate IsNoose(lg: LaneGraph, z: nat, c: nat, p: nat)
    requires lg.Valid()
  {
    && c < |lg.og| && Continues(lg, z, c) && lg.first[c] <= {NULL}
    && Reaches(lg, c, p) && Leads(lg, p, z) && p != z && IsFork(lg, p)
  }

  /** And lanes go on from `z` to two more addresses, the last of which comes after `c`. */
  ghost predicate IsSnare(lg: LaneGraph, z: nat, c: nat, p: nat, f: nat, g: nat)
    requires lg.Valid()
  {
    IsNoose(lg, z, c, p) && IsProng(lg, z, f) && IsProng(lg, z, g) && f < g && c < g && c != f && p != f && p != g
  }

  ghost predicate HasSnare(lg: LaneGraph)
    requires lg.Valid()
  {
    exists z: nat, c: nat, p: nat, f: nat, g: nat :: IsSnare(lg, z, c, p, f, g)
  }

  lemma ReachedIsAddress(lg: LaneGraph, c: nat, p: nat)
    requires lg.Valid() && Reaches(lg, c, p)
    ensures p < |lg.og|
  {
    var path :| IsLane(lg, path, c, p);
  }

  lemma SnaresAreCycles(lg: LaneGraph)
    requires lg.Valid() && HasSnare(lg)
    ensures !IsAcyclic(lg)
  {
    var z: nat, c: nat, p: nat, f: nat, g: nat :| IsSnare(lg, z, c, p, f, g);
    ReachedIsAddress(lg, c, p);
    assert Leads(lg, z, p);
    LeadsJoin(lg, z, p, z);
  }

  // ----- every marker is above a fork -----

  /** The address at `q` is a fork, and those from there up to `i` lead back to it. */
  ghost predicate IsForkBelow(lg: LaneGraph, lane: seq<int>, q: int, i: int)
    requires lg.Valid()
  {
    && 0 <= q < i < |lane| && 0 <= lane[q] && IsFork(lg, lane[q])
    && forall j :: q < j < i && 0 <= lane[j] ==> Leads(lg, lane[j], lane[q])
  }

  ghost predicate IsForkedAt(lg: LaneGraph, lane: seq<int>, i: int)
    requires lg.Valid()
  {
    0 <= i < |lane| && lane[i] == MARKER ==> exists q :: IsForkBelow(lg, lane, q, i)
  }

  ghost predicate EntriesArePlain(lg: LaneGraph, lane: seq<int>)
    requires lg.Valid()
  {
    forall i :: 0 <= i < |lane| && 0 <= lane[i] ==> lane[i] < |lg.og| && lg.base[lane[i]] == {}
  }

  /** Every marker is above a fork, nothing on the lane accepts, and what is there twice is twisted. */
  ghost predicate IsForked(lg: LaneGraph, st: LaneState)
    requires lg.Valid()
  {
    && (forall i {:trigger IsForkedAt(lg, st.lane, i)} :: IsForkedAt(lg, st.lane, i))
    && EntriesArePlain(lg, st.lane) && DoublesAreTwisted(lg, st)
  }

  lemma SameLaneKeepsForked(lg: LaneGraph, st: LaneState, st': LaneState)
    requires lg.Valid() && IsForked(lg, st) && st'.lane == st.lane
    ensures IsForked(lg, st')
  {
    forall i, k | AreTwice(st', i, k)
      ensures IsTwisted(lg, st', i)
    {
      assert AreTwice(st, i, k);
      TwistStays(lg, st, st', i);
    }
  }

  /** Forks and twists are a matter of what is below. */
  lemma ForkStays(lg: LaneGraph, lane: seq<int>, lane': seq<int>, i: int)
    requires lg.Valid() && IsForkedAt(lg, lane, i) && 0 <= i < |lane| && i < |lane'| && lane'[..i + 1] == lane[..i + 1]
    ensures IsForkedAt(lg, lane', i)
  {
    assert forall j :: 0 <= j <= i ==> lane'[j] == lane'[..i + 1][j] == lane[j];
    if lane[i] == MARKER {
      var q :| IsForkBelow(lg, lane, q, i);
      assert IsForkBelow(lg, lane', q, i);
    }
  }

  lemma TwistIsBelow(lg: LaneGraph, st: LaneState, st': LaneState, i: int)
    requires lg.Valid() && IsTwisted(lg, st, i) && i < |st'.lane| && st'.lane[..i + 1] == st.lane[..i + 1]
    ensures IsTwisted(lg, st', i)
  {
    assert forall j :: 0 <= j <= i ==> st'.lane[j] == st'.lane[..i + 1][j] == st.lane[j];
    var p, n :| IsTwistTo(lg, st, p, n, i);
    assert IsTwistTo(lg, st', p, n, i);
  }

  lemma PopKeepsForked(lg: LaneGraph, st: LaneState, st': LaneState, n: nat)
    requires lg.Valid() && IsForked(lg, st) && n <= |st.lane| && st'.lane == st.lane[..n]
    ensures IsForked(lg, st')
  {
    forall i
      ensures IsForkedAt(lg, st'.lane, i)
    {
      if 0 <= i < n {
        ForkStays(lg, st.lane, st'.lane, i);
      }
    }
    forall i, k | AreTwice(st', i, k)
      ensures IsTwisted(lg, st', i)
    {
      assert AreTwice(st, i, k);
      TwistIsBelow(lg, st, st', i);
    }
  }

  /** An address goes on top; where it is already, it must be twisted. */
  lemma PushKeepsForked(lg: LaneGraph, st: LaneState, st': LaneState, w: nat)
    requires lg.Valid() && IsForked(lg, st) && w < |lg.og| && lg.base[w] == {} && st'.lane == st.lane + [w]
    requires forall i :: 0 <= i < |st.lane| && st.lane[i] == w ==> IsTwisted(lg, st, i)
    ensures IsForked(lg, st')
  {
    forall i
      ensures IsForkedAt(lg, st'.lane, i)
    {
      if 0 <= i < |st.lane| {
        assert IsForkedAt(lg, st.lane, i);
        assert st'.lane[..i + 1] == st.lane[..i + 1];
        ForkStays(lg, st.lane, st'.lane, i);
      }
    }
    forall i, k | AreTwice(st', i, k)
      ensures IsTwisted(lg, st', i)
    {
      if k < |st.lane| {
        assert AreTwice(st, i, k);
      }
      assert IsTwisted(lg, st, i);
      TwistStays(lg, st, st', i);
    }
  }

  /** The marker under the top comes to be above the fork that has caused it. */
  lemma MarkKeepsForked(lg: LaneGraph, st: LaneState, st': LaneState, zp: nat)
    requires lg.Valid() && IsForked(lg, st) && zp + 2 == |st.lane| && st.IsEntry(zp) && IsFork(lg, st.lane[zp])
    requires st.IsEntry(zp + 1) && st'.lane == st.lane[..zp + 1] + [MARKER, st.lane[zp + 1]]
    ensures IsForked(lg, st')
  {
    forall i
      ensures IsForkedAt(lg, st'.lane, i)
    {
      if 0 <= i <= zp {
        assert IsForkedAt(lg, st.lane, i);
        assert st'.lane[..i + 1] == st.lane[..i + 1];
        ForkStays(lg, st.lane, st'.lane, i);
      } else if i == zp + 1 {
        assert IsForkBelow(lg, st'.lane, zp, i);
      }
    }
    forall i, k | AreTwice(st', i, k)
      ensures IsTwisted(lg, st', i)
    {
      assert i <= zp && AreTwice(st, i, if k <= zp then k else zp + 1);
      assert st'.lane[..i + 1] == st.lane[..i + 1];
      TwistIsBelow(lg, st, st', i);
    }
  }

  // ----- moving markers -----

  /** Some marker is strictly between the two places. */
  ghost predicate HasMarker(lane: seq<int>, lo: int, hi: int) {
    exists m :: lo < m < hi && 0 <= m < |lane| && lane[m] == MARKER
  }

  lemma {:induction false} MarksMeanMarker(lane: seq<int>, lo: nat, hi: nat)
    requires lo <= hi <= |lane|
    ensures Marks(lane, lo) < Marks(lane, hi) <==> exists m :: lo <= m < hi && lane[m] == MARKER
    decreases hi
  {
    if lo < hi {
      MarksMeanMarker(lane, lo, hi - 1);
      MarksGrow(lane, lo, hi - 1);
      if m :| lo <= m < hi && lane[m] == MARKER {
        assert m < hi - 1 ==> Marks(lane, lo) < Marks(lane, hi - 1);
      }
    }
  }

  /** The lane gets longer just if there is a marker to move. */
  lemma WhenMarkersMove(lane: seq<int>, loc: nat, zp: nat, keepTop: bool)
    requires loc <= zp < |lane| && (keepTop ==> zp < |lane| - 1)
    ensures |lane| < |Moved(lane, loc, zp, keepTop)| <==> HasMarker(lane, loc, zp)
    ensures |lane| <= |Moved(lane, loc, zp, keepTop)|
    ensures !HasMarker(lane, loc, zp) ==> Moved(lane, loc, zp, keepTop) == lane
    ensures HasMarker(lane, loc, zp) ==>
      Moved(lane, loc, zp, keepTop)[|Moved(lane, loc, zp, keepTop)| - (if keepTop then 2 else 1)] == MARKER
  {
    if loc < zp {
      MarksMeanMarker(lane, loc + 1, zp);
      MarksGrow(lane, loc + 1, zp);
      var r := Marks(lane, zp) - Marks(lane, loc + 1);
      if r == 0 {
        assert forall m :: loc < m < zp ==> lane[m] != MARKER;
        assert Zeroed(lane, loc + 1, zp) == lane && Markers(0) == [];
        assert lane == lane[..|lane| - 1] + [lane[|lane| - 1]];
      }
    } else {
      assert Zeroed(lane, loc + 1, zp) == lane && Markers(0) == [];
      assert lane == lane[..|lane| - 1] + [lane[|lane| - 1]];
    }
  }

  /** The addresses of the cycle lead back to the fork under a marker that moves. */
  lemma CycleLeadsToFork(
      lg: LaneGraph, zj: nat, st: LaneState, loc: nat, zp: nat, keepTop: bool, exact: bool, m: int, q: int, j: int)
    requires Core(lg, zj, st, exact) && IsCycle(lg, st, loc, zp, keepTop) && loc < m < zp
    requires IsForkBelow(lg, st.lane, q, m) && q < j <= zp && st.IsEntry(j)
    ensures Leads(lg, st.lane[j], st.lane[q])
  {
    if m <= j {
      CycleReachesBack(lg, zj, st, loc, zp, keepTop, j, exact);
      if q != loc {
        assert st.IsEntry(q) && st.IsEntry(loc);
        assert Leads(lg, st.lane[loc], st.lane[q]);
        LeadsJoin(lg, st.lane[j], st.lane[loc], st.lane[q]);
      }
    }
  }

  lemma MovedMarkerIsForked(
      lg: LaneGraph, zj: nat, st: LaneState, loc: nat, zp: nat, keepTop: bool, exact: bool, moved: seq<int>, i: int)
    requires Core(lg, zj, st, exact) && IsCycle(lg, st, loc, zp, keepTop) && IsForked(lg, st)
    requires moved == Moved(st.lane, loc, zp, keepTop) && HasMarker(st.lane, loc, zp)
    requires zp < i < |moved| && moved[i] == MARKER
    ensures IsForkedAt(lg, moved, i)
  {
    AddressesOfMoved(st.lane, loc, zp, keepTop);
    var m :| loc < m < zp && st.lane[m] == MARKER;
    assert IsForkedAt(lg, st.lane, m);
    var q :| IsForkBelow(lg, st.lane, q, m);
    forall j | q < j < i && 0 <= moved[j]
      ensures Leads(lg, moved[j], moved[q])
    {
      assert j <= zp && st.IsEntry(j) && moved[j] == st.lane[j];
      CycleLeadsToFork(lg, zj, st, loc, zp, keepTop, exact, m, q, j);
    }
    assert IsForkBelow(lg, moved, q, i);
  }

  /** Where no marker moves, or below the place where they were, the lane is as it was. */
  lemma CycleKeepsForkedAt(
      lg: LaneGraph, zj: nat, st: LaneState, loc: nat, zp: nat, keepTop: bool, exact: bool, moved: seq<int>, i: int)
    requires Core(lg, zj, st, exact) && IsCycle(lg, st, loc, zp, keepTop) && IsForked(lg, st)
    requires moved == Moved(st.lane, loc, zp, keepTop)
    ensures IsForkedAt(lg, moved, i)
  {
    hide Moved;
    AddressesOfMoved(st.lane, loc, zp, keepTop);
    WhenMarkersMove(st.lane, loc, zp, keepTop);
    if 0 <= i < |moved| && moved[i] == MARKER {
      if !HasMarker(st.lane, loc, zp) {
        assert IsForkedAt(lg, st.lane, i);
      } else if zp < i {
        MovedMarkerIsForked(lg, zj, st, loc, zp, keepTop, exact, moved, i);
      } else {
        assert i <= loc || i == zp;
        assert st.lane[i] == MARKER && moved[..i + 1] == st.lane[..i + 1];
        assert IsForkedAt(lg, st.lane, i);
        ForkStays(lg, st.lane, moved, i);
      }
    }
  }

  lemma CycleKeepsForked(
      lg: LaneGraph, zj: nat, st: LaneState, loc: nat, zp: nat, keepTop: bool, exact: bool)
    requires Core(lg, zj, st, exact) && IsCycle(lg, st, loc, zp, keepTop) && IsForked(lg, st)
    ensures IsForked(lg, Cycled(st, loc, zp, keepTop))
  {
    hide Moved, IsForkedAt, IsTwistTo;
    var st' := Cycled(st, loc, zp, keepTop);
    forall i
      ensures IsForkedAt(lg, st'.lane, i)
    {
      CycleKeepsForkedAt(lg, zj, st, loc, zp, keepTop, exact, st'.lane, i);
    }
    CycledEntriesWereThere(lg, st, loc, zp, keepTop, st'.lane);
    forall i, k | AreTwice(st', i, k)
      ensures IsTwisted(lg, st', i)
    {
      assert AreTwice(st, i, OldPosition(st, zp, k));
      CycleKeepsTwist(lg, st, loc, zp, keepTop, st', i);
    }
  }

  lemma CycleKeepsTwist(
      lg: LaneGraph, st: LaneState, loc: nat, zp: nat, keepTop: bool, st': LaneState, i: int)
    requires WellFormed(lg, st) && IsCycle(lg, st, loc, zp, keepTop) && IsTwisted(lg, st, i) && i <= zp
    requires st'.lane == Moved(st.lane, loc, zp, keepTop)
    ensures IsTwisted(lg, st', i)
  {
    hide Moved, IsTwist;
    CycledKeepsLower(lg, st, loc, zp, keepTop, st'.lane);
    var p, n :| IsTwistTo(lg, st, p, n, i);
    assert IsTwistTo(lg, st', p, n, i);
  }

  // ----- a marker that has moved makes a noose -----

  ghost predicate IsLow(lane: seq<int>, zp: nat, x: int) {
    exists i :: 0 <= i <= zp && i < |lane| && lane[i] == x
  }

  /** The cycle from `zp` down to `loc` comes past the fork under the marker, or, if that is at the address of `zp`
      itself, past the twist below. */
  lemma CycleMakesNoose(
      lg: LaneGraph, zj: nat, st: LaneState, loc: nat, zp: nat, keepTop: bool, exact: bool)
    returns (p: nat)
    requires Core(lg, zj, st, exact) && IsCycle(lg, st, loc, zp, keepTop) && IsForked(lg, st)
    requires HasMarker(st.lane, loc, zp) && lg.first[st.lane[loc]] <= {NULL}
    ensures IsNoose(lg, st.lane[zp], st.lane[loc], p) && IsLow(st.lane, zp, p)
  {
    hide IsFork, Continues, Reaches;
    var m :| loc < m < zp && st.lane[m] == MARKER;
    assert IsForkedAt(lg, st.lane, m);
    var q :| IsForkBelow(lg, st.lane, q, m);
    assert st.IsEntry(q) && st.IsEntry(loc) && st.IsEntry(zp);
    assert Reaches(lg, st.lane[loc], st.lane[q]) by {
      ReachesItself(lg, st.lane[loc]);
      if loc != q {
        LeadsIsReaches(lg, st.lane[loc], st.lane[q]);
      }
    }
    if st.lane[q] != st.lane[zp] {
      p := st.lane[q];
    } else {
      assert AreTwice(st, q, zp);
      p := TwistMakesNoose(lg, st, q, zp, loc);
    }
  }

  lemma TwistMakesNoose(lg: LaneGraph, st: LaneState, q: nat, zp: nat, loc: nat) returns (p: nat)
    requires WellFormed(lg, st) && IsForked(lg, st) && IsTwisted(lg, st, q) && q < zp && st.IsEntry(q) && st.IsEntry(zp)
    requires st.lane[q] == st.lane[zp] && st.IsEntry(loc) && Continues(lg, st.lane[zp], st.lane[loc])
    requires Reaches(lg, st.lane[loc], st.lane[q]) && lg.first[st.lane[loc]] <= {NULL}
    ensures IsNoose(lg, st.lane[zp], st.lane[loc], p) && IsLow(st.lane, zp, p)
  {
    var t, n :| IsTwistTo(lg, st, t, n, q);
    p := st.lane[t];
    assert IsTwist(lg, p, st.lane[n], st.lane[q]);
    assert IsProng(lg, p, st.lane[n]) && IsProng(lg, p, st.lane[q]);
    StepLeads(lg, p, st.lane[q]);
    LeadsIsReaches(lg, st.lane[q], p);
    LanesJoin(lg, st.lane[loc], st.lane[q], p);
  }

  // ----- in the loop over the originators -----

  /** One of the first `k` originators of the address at `zp` makes a noose. */
  ghost predicate HasNoose(lg: LaneGraph, lane: seq<int>, zp: nat, edges: seq<nat>)
    requires lg.Valid() && zp < |lane| && 0 <= lane[zp]
  {
    exists c: nat, p: nat ::
      IsNoose(lg, lane[zp], c, p) && c in edges && IsLow(lane, zp, c) && IsLow(lane, zp, p)
  }

  /** The first originator to fail is not further down, and if a marker has moved, one has made a noose. */
  ghost predicate IsNoosed(lg: LaneGraph, st: LaneState, zp: nat, k: nat, nf: nat) {
    && lg.Valid() && st.IsEntry(zp) && st.lane[zp] < |lg.og| && k <= |lg.og[st.lane[zp]]|
    && (0 < nf ==> !IsLow(st.lane, zp, st.lane[|st.lane| - 1]))
    && (nf <= 1 && zp + 1 + nf < |st.lane| ==> HasNoose(lg, st.lane, zp, lg.og[st.lane[zp]][..k]))
  }

  lemma SameLow(lane: seq<int>, lane': seq<int>, zp: nat, x: nat)
    requires zp < |lane| && zp < |lane'|
    requires forall i :: 0 <= i <= zp ==> lane'[i] == lane[i] || (lane[i] < 0 && lane'[i] < 0)
    ensures IsLow(lane', zp, x) <==> IsLow(lane, zp, x)
  {
  }

  lemma NooseStays(
      lg: LaneGraph, lane: seq<int>, lane': seq<int>, zp: nat, edges: seq<nat>, edges': seq<nat>)
    requires lg.Valid() && zp < |lane| && 0 <= lane[zp] && zp < |lane'| && HasNoose(lg, lane, zp, edges)
    requires forall i :: 0 <= i <= zp ==> lane'[i] == lane[i] || (lane[i] < 0 && lane'[i] < 0)
    requires forall c :: c in edges ==> c in edges'
    ensures 0 <= lane'[zp] && HasNoose(lg, lane', zp, edges')
  {
    var c: nat, p: nat :| IsNoose(lg, lane[zp], c, p) && c in edges && IsLow(lane, zp, c) && IsLow(lane, zp, p);
    SameLow(lane, lane', zp, c);
    SameLow(lane, lane', zp, p);
  }

  lemma NextKeepsNoosed(lg: LaneGraph, st: LaneState, st': LaneState, zp: nat, k: nat, nf: nat)
    requires IsNoosed(lg, st, zp, k, nf) && k < |lg.og[st.lane[zp]]| && st'.lane == st.lane
    ensures IsNoosed(lg, st', zp, k, nf) && IsNoosed(lg, st', zp, k + 1, nf)
  {
    var edges := lg.og[st.lane[zp]];
    assert edges[..k + 1] == edges[..k] + [edges[k]];
    if nf <= 1 && zp + 1 + nf < |st.lane| {
      NooseStays(lg, st.lane, st'.lane, zp, edges[..k], edges[..k + 1]);
    }
  }

  lemma FirstFailureKeepsNoosed(
      lg: LaneGraph, st: LaneState, st': LaneState, zp: nat, k: nat, w: nat)
    requires IsNoosed(lg, st, zp, k, 0) && k < |lg.og[st.lane[zp]]| && st'.lane == st.lane + [w] && w !in st.lane
    ensures IsNoosed(lg, st', zp, k + 1, 1)
  {
    var edges := lg.og[st.lane[zp]];
    assert edges[..k + 1] == edges[..k] + [edges[k]];
    if zp + 1 < |st.lane| {
      NooseStays(lg, st.lane, st'.lane, zp, edges[..k], edges[..k + 1]);
    }
    forall i | 0 <= i <= zp
      ensures st'.lane[i] != w
    {
      assert st'.lane[i] == st.lane[i];
    }
  }

  lemma LaterFailureKeepsNoosed(
      lg: LaneGraph, st: LaneState, st': LaneState, zp: nat, k: nat, nf: nat, nf': nat)
    requires IsNoosed(lg, st, zp, k, nf) && k < |lg.og[st.lane[zp]]| && 0 < nf && 1 < nf'
    requires zp < |st'.lane| && (forall i :: 0 <= i <= zp ==> st'.lane[i] == st.lane[i])
    requires st.IsEntry(|st.lane| - 1) && st'.lane[|st'.lane| - 1] == st.lane[|st.lane| - 1]
    ensures IsNoosed(lg, st', zp, k + 1, nf')
  {
    SameLow(st.lane, st'.lane, zp, st.lane[|st.lane| - 1]);
  }

  lemma CycleKeepsNoosed(
      lg: LaneGraph, zj: nat, st: LaneState, loc: nat, zp: nat, k: nat, nf: nat, exact: bool, st': LaneState)
    requires Core(lg, zj, st, exact) && IsCycle(lg, st, loc, zp, 0 < nf) && IsForked(lg, st)
    requires IsNoosed(lg, st, zp, k, nf) && k < |lg.og[st.lane[zp]]| && st.lane[loc] == lg.og[st.lane[zp]][k]
    requires lg.first[st.lane[loc]] <= {NULL} && st'.lane == Moved(st.lane, loc, zp, 0 < nf)
    ensures IsNoosed(lg, st', zp, k + 1, nf)
  {
    hide Moved, IsNoose, IsLow, IsForked, HasMarker;
    AddressesOfMoved(st.lane, loc, zp, 0 < nf);
    WhenMarkersMove(st.lane, loc, zp, 0 < nf);
    var edges := lg.og[st.lane[zp]];
    assert edges[..k + 1] == edges[..k] + [edges[k]];
    if 0 < nf {
      SameLow(st.lane, st'.lane, zp, st.lane[|st.lane| - 1]);
    }
    if nf <= 1 && zp + 1 + nf < |st'.lane| {
      if HasMarker(st.lane, loc, zp) {
        NooseIsMade(lg, zj, st, loc, zp, 0 < nf, exact, edges[..k + 1]);
        NooseStays(lg, st.lane, st'.lane, zp, edges[..k + 1], edges[..k + 1]);
      } else {
        NooseStays(lg, st.lane, st'.lane, zp, edges[..k], edges[..k + 1]);
      }
    }
  }

  lemma NooseIsMade(
      lg: LaneGraph, zj: nat, st: LaneState, loc: nat, zp: nat, keepTop: bool, exact: bool, edges: seq<nat>)
    requires Core(lg, zj, st, exact) && IsCycle(lg, st, loc, zp, keepTop) && IsForked(lg, st)
    requires HasMarker(st.lane, loc, zp) && lg.first[st.lane[loc]] <= {NULL} && st.lane[loc] in edges
    ensures HasNoose(lg, st.lane, zp, edges)
  {
    hide IsNoose, IsForked, HasMarker;
    var p := CycleMakesNoose(lg, zj, st, loc, zp, keepTop, exact);
    assert IsLow(st.lane, zp, st.lane[loc]);
  }

  /** The check fails: the second originator to fail closes the snare. */
  lemma FailedCheckIsSnare(
      lg: LaneGraph, st: LaneState, zp: nat, k: nat, f: nat, g: nat)
    requires IsNoosed(lg, st, zp, k, 1) && k < |lg.og[st.lane[zp]]| && StrictlyIncreasing(lg.og[st.lane[zp]])
    requires zp + 2 < |st.lane| && f == st.lane[|st.lane| - 1] && g == lg.og[st.lane[zp]][k] && g !in st.lane
    requires f in lg.og[st.lane[zp]][..k] && IsProng(lg, st.lane[zp], f) && IsProng(lg, st.lane[zp], g)
    ensures HasSnare(lg)
  {
    hide IsNoose, IsProng;
    var edges, z := lg.og[st.lane[zp]], st.lane[zp];
    var c: nat, p: nat :| IsNoose(lg, z, c, p) && c in edges[..k] && IsLow(st.lane, zp, c) && IsLow(st.lane, zp, p);
    assert forall j :: 0 <= j < k ==> edges[j] < edges[k];
    assert IsSnare(lg, z, c, p, f, g);
  }
}
