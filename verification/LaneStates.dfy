/** The working state of the lane-tracing algorithm (Figure 7 of Pager, 1977) and what every one of
    its steps keeps. */
module LaneStates {
  import opened Containers
  import opened Lanes

  const MARKER: int := -433
  const ZERO: int := -100

  /** `lane` and `stack` hold addresses, markers and zeros; the other vectors are by address. */
  datatype LaneState = LaneState(
    contexts: seq<set<int>>, complete: seq<bool>, lane: seq<int>, inLane: seq<bool>, stack: seq<int>)
  {
    predicate IsEntry(i: int) {
      0 <= i < |lane| && 0 <= lane[i]
    }

    predicate IsWaiting(s: int) {
      0 <= s < |stack| && 0 <= stack[s]
    }

    /** Waiting address `s` belongs to a marker above lane position `i`. */
    ghost predicate WaitsAbove(s: int, i: int) {
      IsEntry(i) && IsWaiting(s) && Marks(lane, i) < Marks(stack, s)
    }
  }

  /** The number of markers in the first `i` places. */
  ghost function Marks(s: seq<int>, i: nat): nat
    requires i <= |s|
  {
    if i == 0 then 0 else Marks(s, i - 1) + if s[i - 1] == MARKER then 1 else 0
  }

  lemma {:induction false} MarksOfPrefix(s: seq<int>, t: seq<int>, i: nat)
    requires i <= |s| && i <= |t| && s[..i] == t[..i]
    ensures Marks(s, i) == Marks(t, i)
  {
    if i > 0 {
      assert s[..i - 1] == s[..i][..i - 1] && t[..i - 1] == t[..i][..i - 1];
      assert s[i - 1] == s[..i][i - 1] && t[i - 1] == t[..i][i - 1];
      MarksOfPrefix(s, t, i - 1);
    }
  }

  lemma {:induction false} MarksGrow(s: seq<int>, i: nat, j: nat)
    requires i <= j <= |s|
    ensures Marks(s, i) <= Marks(s, j)
    decreases j
  {
    if i < j {
      MarksGrow(s, i, j - 1);
    }
  }

  // ----- the parts of the invariant -----

  ghost predicate WellFormed(lg: LaneGraph, st: LaneState) {
    && lg.Valid()
    && |st.contexts| == |st.complete| == |st.inLane| == |lg.og|
    && (forall i :: 0 <= i < |st.lane| ==> st.lane[i] == MARKER || st.lane[i] == ZERO || 0 <= st.lane[i] < |lg.og|)
    && (forall s :: 0 <= s < |st.stack| ==> st.stack[s] == MARKER || 0 <= st.stack[s] < |lg.og|)
    && Marks(st.lane, |st.lane|) == Marks(st.stack, |st.stack|)
  }

  /** Every context recorded is a context; while the run is `exact`, the complete addresses have all
      of theirs. */
  ghost predicate ContextsAreRight(lg: LaneGraph, st: LaneState, exact: bool)
    requires WellFormed(lg, st)
  {
    && (forall z: nat, t :: z < |lg.og| && t in st.contexts[z] ==> InContext(lg, z, t))
    && (exact ==> forall z: nat, t ::
          z < |lg.og| && st.complete[z] && InContext(lg, z, t) ==> t in st.contexts[z])
    && (forall z :: 0 <= z < |lg.og| && !st.complete[z] ==> lg.base[z] == {})
  }

  /** Only complete addresses and those on the lane have contexts; the flags mark the lane. */
  ghost predicate FlagsAreRight(lg: LaneGraph, st: LaneState)
    requires WellFormed(lg, st)
  {
    && (forall z :: 0 <= z < |lg.og| && !st.complete[z] && z !in st.lane ==> st.contexts[z] == {})
    && (forall z :: 0 <= z < |lg.og| && st.inLane[z] ==> z in st.lane)
    && (forall z :: 0 <= z < |lg.og| && z in st.lane && !st.complete[z] ==> st.inLane[z])
  }

  /** Along the lane, the lower address leads to the higher one and has its contexts. */
  ghost predicate LaneIsNested(lg: LaneGraph, st: LaneState, exact: bool)
    requires WellFormed(lg, st)
  {
    forall i, j :: i < j && st.IsEntry(i) && st.IsEntry(j) ==>
      && Leads(lg, st.lane[i], st.lane[j])
      && (exact ==> st.contexts[st.lane[j]] <= st.contexts[st.lane[i]])
  }

  /** An address leads to those that wait above it and has their contexts, but for those in `due`. */
  ghost predicate StackIsNested(lg: LaneGraph, st: LaneState, due: set<int>, exact: bool)
    requires WellFormed(lg, st)
  {
    forall i, s :: st.WaitsAbove(s, i) ==>
      && Leads(lg, st.lane[i], st.stack[s])
      && (exact ==> st.contexts[st.stack[s]] <= st.contexts[st.lane[i]] + due)
  }

  /** The originator `w`, whose follow string may be empty, of lane position `i` has been dealt with:
      it is complete, or above on the lane, or below with no marker in between, or waiting above. In an
      exact run its contexts, where there may be any, have been taken over. */
  ghost predicate IsHandled(lg: LaneGraph, st: LaneState, i: int, w: nat, exact: bool)
    requires WellFormed(lg, st) && st.IsEntry(i) && w < |lg.og|
  {
    || (st.complete[w] && (exact ==> st.contexts[w] <= st.contexts[st.lane[i]]))
    || (exists j :: i < j < |st.lane| && st.lane[j] == w)
    || ((exact ==> st.contexts[w] <= st.contexts[st.lane[i]])
        && exists j :: 0 <= j <= i && st.lane[j] == w && Marks(st.lane, j) == Marks(st.lane, i))
    || (exists s :: st.WaitsAbove(s, i) && st.stack[s] == w)
  }

  ghost predicate IsServed(lg: LaneGraph, st: LaneState, i: int, w: nat, exact: bool)
    requires WellFormed(lg, st) && st.IsEntry(i) && w < |lg.og|
  {
    && (exact ==> lg.first[w] - {NULL} <= st.contexts[st.lane[i]])
    && (Vanishes(lg.first[w]) ==> IsHandled(lg, st, i, w, exact))
  }

  /** All originators of the lane position are served. */
  ghost predicate IsTraced(lg: LaneGraph, st: LaneState, i: int, exact: bool)
    requires WellFormed(lg, st)
  {
    st.IsEntry(i) ==> forall w: nat :: HasEdge(lg.og, st.lane[i], w) ==> IsServed(lg, st, i, w, exact)
  }

  ghost predicate TracedBelow(lg: LaneGraph, st: LaneState, n: int, exact: bool)
    requires WellFormed(lg, st)
  {
    forall i :: 0 <= i < n ==> IsTraced(lg, st, i, exact)
  }

  /** Everything that may continue a lane from a complete address is complete. */
  ghost predicate IsSealed(lg: LaneGraph, st: LaneState)
    requires WellFormed(lg, st)
  {
    forall z: nat, w: nat :: Continues(lg, z, w) && z < |lg.og| && st.complete[z] ==> w < |lg.og| && st.complete[w]
  }

  /** The address is on the lane, and no marker is above it. */
  ghost predicate IsUnmarked(st: LaneState, w: nat) {
    exists j :: st.IsEntry(j) && st.lane[j] == w && Marks(st.lane, j) == Marks(st.lane, |st.lane|)
  }

  /** While the lane is popped, what is missing for that is on the lane and about to be popped. */
  ghost predicate IsClosing(lg: LaneGraph, st: LaneState)
    requires WellFormed(lg, st)
  {
    forall z: nat, w: nat :: Continues(lg, z, w) && z < |lg.og| && st.complete[z] ==>
      w < |lg.og| && (st.complete[w] || IsUnmarked(st, w))
  }

  ghost predicate CoreButFor(lg: LaneGraph, zj: nat, st: LaneState, due: set<int>, exact: bool) {
    && WellFormed(lg, st)
    && ContextsAreRight(lg, st, exact)
    && FlagsAreRight(lg, st)
    && LaneIsNested(lg, st, exact)
    && StackIsNested(lg, st, due, exact)
    && st.lane != [] && st.lane[0] == zj
  }

  ghost predicate Core(lg: LaneGraph, zj: nat, st: LaneState, exact: bool) {
    CoreButFor(lg, zj, st, {}, exact)
  }

  // ----- adding contexts -----

  /** The contexts `s` added at every address in the first `n` places of the lane. */
  ghost predicate AddedTo(st: LaneState, n: nat, s: set<int>, contexts: seq<set<int>>)
    requires n <= |st.lane|
  {
    && |contexts| == |st.contexts|
    && forall z :: 0 <= z < |contexts| ==>
         contexts[z] == if z in st.lane[..n] then st.contexts[z] + s else st.contexts[z]
  }

  /** What the routine that adds contexts guarantees: no address outside the lane gains any, and in an
      exact run all that should gain them do. */
  ghost predicate Added(st: LaneState, n: nat, s: set<int>, contexts: seq<set<int>>, exact: bool)
    requires n <= |st.lane|
  {
    && |contexts| == |st.contexts|
    && (forall z :: 0 <= z < |contexts| ==> st.contexts[z] <= contexts[z] <= st.contexts[z] + s)
    && (forall z :: 0 <= z < |contexts| && z !in st.lane[..n] ==> contexts[z] == st.contexts[z])
    && (exact ==> AddedTo(st, n, s, contexts))
  }

  /** Everything above position `zp` but the top of the lane is a mark. */
  ghost predicate OnlyTopAbove(st: LaneState, zp: nat) {
    forall j :: zp < j < |st.lane| - 1 ==> !st.IsEntry(j)
  }

  lemma AddKeepsContextsRight(
      lg: LaneGraph, zj: nat, st: LaneState, zp: nat, s: set<int>, contexts: seq<set<int>>, exact: bool)
    requires CoreButFor(lg, zj, st, s, exact) && st.IsEntry(zp)
    requires forall t :: t in s ==> InContext(lg, st.lane[zp], t)
    requires Added(st, zp + 1, s, contexts, exact)
    ensures WellFormed(lg, st.(contexts := contexts)) && ContextsAreRight(lg, st.(contexts := contexts), exact)
    ensures exact ==> forall z: nat :: z < |lg.og| && st.complete[z] ==> contexts[z] == st.contexts[z]
  {
    forall z: nat, t | z < |lg.og| && z in st.lane[..zp + 1] && t in s
      ensures InContext(lg, z, t)
    {
      var i :| 0 <= i < zp + 1 && st.lane[..zp + 1][i] == z;
      assert st.lane[i] == z;
      if i < zp {
        LeadsIsReaches(lg, z, st.lane[zp]);
        ContextsFlow(lg, z, st.lane[zp], t);
      }
    }
    if exact {
      forall z: nat | z < |lg.og| && st.complete[z]
        ensures contexts[z] == st.contexts[z]
      {
        if z in st.lane[..zp + 1] {
          assert forall t :: t in s ==> t in st.contexts[z];
        }
      }
    }
  }

  lemma AddKeepsLaneNested(
      lg: LaneGraph, st: LaneState, zp: nat, s: set<int>, contexts: seq<set<int>>, exact: bool)
    requires WellFormed(lg, st) && LaneIsNested(lg, st, exact) && st.IsEntry(zp) && OnlyTopAbove(st, zp)
    requires Added(st, zp + 1, s, contexts, exact) && WellFormed(lg, st.(contexts := contexts))
    ensures LaneIsNested(lg, st.(contexts := contexts), exact)
  {
    var st' := st.(contexts := contexts);
    forall i, j | i < j && st'.IsEntry(i) && st'.IsEntry(j)
      ensures Leads(lg, st.lane[i], st.lane[j])
      ensures exact ==> contexts[st.lane[j]] <= contexts[st.lane[i]]
    {
      assert st.IsEntry(i) && st.IsEntry(j);
      assert i <= zp && st.lane[..zp + 1][i] == st.lane[i];
    }
  }

  lemma AddKeepsStackNested(
      lg: LaneGraph, st: LaneState, zp: nat, s: set<int>, contexts: seq<set<int>>, exact: bool)
    requires WellFormed(lg, st) && StackIsNested(lg, st, s, exact) && st.IsEntry(zp) && OnlyTopAbove(st, zp)
    requires Added(st, zp + 1, s, contexts, exact) && WellFormed(lg, st.(contexts := contexts))
    ensures StackIsNested(lg, st.(contexts := contexts), {}, exact)
  {
    var st' := st.(contexts := contexts);
    forall i, k | st'.WaitsAbove(k, i)
      ensures Leads(lg, st.lane[i], st.stack[k])
      ensures exact ==> contexts[st.stack[k]] <= contexts[st.lane[i]]
    {
      assert st.WaitsAbove(k, i);
      MarksGrow(st.stack, k, |st.stack|);
      assert Marks(st.lane, |st.lane| - 1) == Marks(st.lane, |st.lane|) || !st.IsEntry(|st.lane| - 1);
      assert i <= zp && st.lane[..zp + 1][i] == st.lane[i];
    }
  }

  lemma AddKeepsServed(
      lg: LaneGraph, zj: nat, st: LaneState, zp: nat, s: set<int>, contexts: seq<set<int>>, i: nat, w: nat, exact: bool)
    requires CoreButFor(lg, zj, st, s, exact) && st.IsEntry(zp) && i <= zp && st.IsEntry(i) && w < |lg.og|
    requires Added(st, zp + 1, s, contexts, exact) && WellFormed(lg, st.(contexts := contexts))
    requires exact ==> forall z: nat :: z < |lg.og| && st.complete[z] ==> contexts[z] == st.contexts[z]
    requires IsServed(lg, st, i, w, exact)
    ensures IsServed(lg, st.(contexts := contexts), i, w, exact)
  {
    var st' := st.(contexts := contexts);
    assert st.lane[i] in st.lane[..zp + 1];
    if Vanishes(lg.first[w]) {
      if s :| st.WaitsAbove(s, i) && st.stack[s] == w {
        assert st'.WaitsAbove(s, i);
      }
    }
  }

  /** Adding contexts of the address at `zp` to it and to everything below keeps the invariant. */
  lemma AddKeepsCore(
      lg: LaneGraph, zj: nat, st: LaneState, zp: nat, s: set<int>, contexts: seq<set<int>>, exact: bool)
    requires CoreButFor(lg, zj, st, s, exact) && st.IsEntry(zp) && OnlyTopAbove(st, zp)
    requires forall t :: t in s ==> InContext(lg, st.lane[zp], t)
    requires Added(st, zp + 1, s, contexts, exact)
    ensures Core(lg, zj, st.(contexts := contexts), exact)
    ensures forall i: nat, w: nat ::
      i <= zp && st.IsEntry(i) && w < |lg.og| && IsServed(lg, st, i, w, exact)
      ==> IsServed(lg, st.(contexts := contexts), i, w, exact)
  {
    AddKeepsContextsRight(lg, zj, st, zp, s, contexts, exact);
    AddKeepsLaneNested(lg, st, zp, s, contexts, exact);
    AddKeepsStackNested(lg, st, zp, s, contexts, exact);
    forall i: nat, w: nat | i <= zp && st.IsEntry(i) && w < |lg.og| && IsServed(lg, st, i, w, exact)
      ensures IsServed(lg, st.(contexts := contexts), i, w, exact)
    {
      AddKeepsServed(lg, zj, st, zp, s, contexts, i, w, exact);
    }
  }

  // ----- moving markers -----

  ghost function Zeroed(lane: seq<int>, lo: nat, hi: nat): (zeroed: seq<int>)
    ensures |zeroed| == |lane|
    ensures forall i :: 0 <= i < |lane| ==>
      zeroed[i] == if lo <= i < hi && lane[i] == MARKER then ZERO else lane[i]
  {
    seq(|lane|, i requires 0 <= i < |lane| => if lo <= i < hi && lane[i] == MARKER then ZERO else lane[i])
  }

  ghost function Markers(r: nat): (markers: seq<int>)
    ensures |markers| == r
    ensures forall i :: 0 <= i < r ==> markers[i] == MARKER
  {
    seq(r, _ => MARKER)
  }

  /** The markers strictly between `loc` and `zp` have become zeros and as many are on top of the
      lane, below its last address if that has just been pushed. */
  ghost function Moved(lane: seq<int>, loc: nat, zp: nat, keepTop: bool): seq<int>
    requires loc <= zp < |lane| && (keepTop ==> zp < |lane| - 1)
  {
    var r := if loc < zp then Marks(lane, zp) - Marks(lane, loc + 1) else 0;
    MarksGrow(lane, loc + (if loc < zp then 1 else 0), zp);
    var zeroed := Zeroed(lane, loc + 1, zp);
    if keepTop then zeroed[..|lane| - 1] + Markers(r) + [lane[|lane| - 1]] else zeroed + Markers(r)
  }

  lemma {:induction false} MarksOfZeroed(lane: seq<int>, lo: nat, hi: nat, i: nat)
    requires lo <= hi <= |lane| && i <= |lane|
    ensures Marks(Zeroed(lane, lo, hi), i) ==
      if i <= lo then Marks(lane, i)
      else if i <= hi then Marks(lane, lo)
      else Marks(lane, i) - Marks(lane, hi) + Marks(lane, lo)
    decreases i
  {
    if i > 0 {
      MarksOfZeroed(lane, lo, hi, i - 1);
    }
  }

  lemma {:induction false} MarksOfMarkers(base: seq<int>, r: nat)
    ensures Marks(base + Markers(r), |base| + r) == Marks(base, |base|) + r
  {
    if r > 0 {
      MarksOfMarkers(base, r - 1);
      MarksOfPrefix(base + Markers(r), base + Markers(r - 1), |base| + r - 1);
      assert (base + Markers(r))[..|base| + r - 1] == (base + Markers(r - 1))[..|base| + r - 1];
    } else {
      assert base + Markers(0) == base;
    }
  }

  /** How many markers are left in a lower part of the lane once those after `loc` are zeros. */
  lemma {:induction false} MarksBelowMoved(lane: seq<int>, loc: nat, zp: nat, n: nat, i: nat)
    requires loc < zp < n <= |lane| && 0 <= lane[loc] && i <= n && (i <= zp || i == n)
    ensures Marks(Zeroed(lane, loc + 1, zp)[..n], i) ==
      if i <= loc then Marks(lane, i)
      else if i <= zp then Marks(lane, loc)
      else Marks(lane, i) - Marks(lane, zp) + Marks(lane, loc)
  {
    var zeroed := Zeroed(lane, loc + 1, zp);
    assert Marks(lane, loc + 1) == Marks(lane, loc);
    MarksOfPrefix(zeroed[..n], zeroed, i);
    MarksOfZeroed(lane, loc + 1, zp, i);
  }

  lemma {:induction false} MarksOfMoved(lane: seq<int>, loc: nat, zp: nat, keepTop: bool, i: nat)
    requires loc <= zp < |lane| && (keepTop ==> zp < |lane| - 1)
    requires 0 <= lane[loc] && i <= zp
    ensures |lane| <= |Moved(lane, loc, zp, keepTop)|
    ensures Marks(Moved(lane, loc, zp, keepTop), i) == if i <= loc then Marks(lane, i) else Marks(lane, loc)
  {
    var moved := Moved(lane, loc, zp, keepTop);
    if loc == zp {
      assert moved[..i] == lane[..i];
      MarksOfPrefix(moved, lane, i);
    } else {
      MarksGrow(lane, loc + 1, zp);
      var n := if keepTop then |lane| - 1 else |lane|;
      var bottom := Zeroed(lane, loc + 1, zp)[..n];
      assert moved[..i] == bottom[..i];
      MarksOfPrefix(moved, bottom, i);
      MarksBelowMoved(lane, loc, zp, n, i);
    }
  }

  lemma MarksOfBottom(lane: seq<int>, loc: nat, zp: nat, n: nat, r: nat)
    requires loc < zp < n <= |lane| && 0 <= lane[loc]
    requires r == Marks(lane, zp) - Marks(lane, loc + 1)
    ensures Marks(Zeroed(lane, loc + 1, zp)[..n] + Markers(r), n + r) == Marks(lane, n)
  {
    var bottom := Zeroed(lane, loc + 1, zp)[..n];
    MarksBelowMoved(lane, loc, zp, n, n);
    MarksOfMarkers(bottom, r);
    assert Marks(lane, loc + 1) == Marks(lane, loc);
  }

  lemma MarksOfTop(below: seq<int>, lane: seq<int>, n: nat)
    requires n + 1 == |lane| && 0 <= lane[n] && Marks(below, |below|) == Marks(lane, n)
    ensures Marks(below + [lane[n]], |below| + 1) == Marks(lane, |lane|)
  {
    MarksOfPush(below, lane[n]);
  }

  lemma {:induction false} MovedUnderTopKeepsMarks(lane: seq<int>, loc: nat, zp: nat, n: nat)
    requires loc < zp < n && n + 1 == |lane| && 0 <= lane[n] && 0 <= lane[loc]
    ensures Marks(Moved(lane, loc, zp, true), |Moved(lane, loc, zp, true)|) == Marks(lane, |lane|)
  {
    MarksGrow(lane, loc + 1, zp);
    var r := Marks(lane, zp) - Marks(lane, loc + 1);
    var below := Zeroed(lane, loc + 1, zp)[..n] + Markers(r);
    MarksOfBottom(lane, loc, zp, n, r);
    MarksOfTop(below, lane, n);
    assert Moved(lane, loc, zp, true) == below + [lane[n]];
  }

  lemma {:induction false} MovedOnTopKeepsMarks(lane: seq<int>, loc: nat, zp: nat, n: nat)
    requires loc < zp < n == |lane| && 0 <= lane[loc]
    ensures Marks(Moved(lane, loc, zp, false), |Moved(lane, loc, zp, false)|) == Marks(lane, |lane|)
  {
    MarksGrow(lane, loc + 1, zp);
    var zeroed := Zeroed(lane, loc + 1, zp);
    MarksOfBottom(lane, loc, zp, n, Marks(lane, zp) - Marks(lane, loc + 1));
    assert zeroed[..n] == zeroed;
  }

  /** No marker is lost. */
  lemma {:induction false} MovedKeepsMarks(lane: seq<int>, loc: nat, zp: nat, keepTop: bool)
    requires loc <= zp < |lane| && (keepTop ==> zp < |lane| - 1 && 0 <= lane[|lane| - 1])
    requires 0 <= lane[loc]
    ensures Marks(Moved(lane, loc, zp, keepTop), |Moved(lane, loc, zp, keepTop)|) == Marks(lane, |lane|)
  {
    if loc == zp {
      assert Moved(lane, loc, zp, keepTop) == lane;
    } else if keepTop {
      MovedUnderTopKeepsMarks(lane, loc, zp, |lane| - 1);
    } else {
      MovedOnTopKeepsMarks(lane, loc, zp, |lane|);
    }
  }

  lemma AddressesOfMoved(lane: seq<int>, loc: nat, zp: nat, keepTop: bool)
    requires loc <= zp < |lane| && (keepTop ==> zp < |lane| - 1)
    ensures |lane| <= |Moved(lane, loc, zp, keepTop)|
    ensures forall i :: 0 <= i <= zp ==>
      Moved(lane, loc, zp, keepTop)[i] == if loc < i < zp && lane[i] == MARKER then ZERO else lane[i]
    ensures forall i :: zp < i < |Moved(lane, loc, zp, keepTop)| ==>
      || Moved(lane, loc, zp, keepTop)[i] == MARKER
      || (keepTop && i == |Moved(lane, loc, zp, keepTop)| - 1)
      || (i < |lane| - (if keepTop then 1 else 0) && Moved(lane, loc, zp, keepTop)[i] == lane[i])
    ensures keepTop ==> Moved(lane, loc, zp, keepTop)[|Moved(lane, loc, zp, keepTop)| - 1] == lane[|lane| - 1]
  {
    if loc < zp {
      MarksGrow(lane, loc + 1, zp);
    }
  }

  /** A cycle has been found: the address at `zp` has the one at `loc`, lower on the lane, as an
      originator with an empty follow string. */
  ghost predicate IsCycle(lg: LaneGraph, st: LaneState, loc: nat, zp: nat, keepTop: bool)
    requires WellFormed(lg, st)
  {
    && loc <= zp && st.IsEntry(loc) && st.IsEntry(zp)
    && Continues(lg, st.lane[zp], st.lane[loc])
    && (keepTop ==> zp < |st.lane| - 1 && st.IsEntry(|st.lane| - 1))
    && (forall j :: zp < j < |st.lane| - (if keepTop then 1 else 0) ==> st.lane[j] == MARKER)
  }

  ghost function Cycled(st: LaneState, loc: nat, zp: nat, keepTop: bool): LaneState
    requires loc <= zp < |st.lane| && (keepTop ==> zp < |st.lane| - 1)
  {
    st.(lane := Moved(st.lane, loc, zp, keepTop))
  }

  /** Where an address of the changed lane was before. */
  ghost function OldPosition(st: LaneState, zp: nat, j: int): int {
    if j <= zp then j else |st.lane| - 1
  }

  /** The addresses of the changed lane: those up to `zp`, and the top if it is kept. */
  lemma CycledEntriesWereThere(
      lg: LaneGraph, st: LaneState, loc: nat, zp: nat, keepTop: bool, moved: seq<int>)
    requires WellFormed(lg, st) && IsCycle(lg, st, loc, zp, keepTop) && moved == Moved(st.lane, loc, zp, keepTop)
    ensures forall j :: 0 <= j < |moved| && 0 <= moved[j] ==>
      && (j <= zp || (keepTop && j == |moved| - 1))
      && st.IsEntry(OldPosition(st, zp, j)) && moved[j] == st.lane[OldPosition(st, zp, j)]
  {
    hide Moved, WellFormed;
    AddressesOfMoved(st.lane, loc, zp, keepTop);
  }

  lemma CycledKeepsLower(
      lg: LaneGraph, st: LaneState, loc: nat, zp: nat, keepTop: bool, moved: seq<int>)
    requires WellFormed(lg, st) && IsCycle(lg, st, loc, zp, keepTop) && moved == Moved(st.lane, loc, zp, keepTop)
    ensures |st.lane| <= |moved| && forall i :: 0 <= i <= zp && st.IsEntry(i) ==> moved[i] == st.lane[i]
    ensures keepTop ==> zp < |moved| - 1 && moved[|moved| - 1] == st.lane[|st.lane| - 1]
  {
    hide Moved, WellFormed;
    AddressesOfMoved(st.lane, loc, zp, keepTop);
  }

  lemma CycledKeepsAddresses(
      lg: LaneGraph, st: LaneState, loc: nat, zp: nat, keepTop: bool, moved: seq<int>, z: int)
    requires WellFormed(lg, st) && IsCycle(lg, st, loc, zp, keepTop) && moved == Moved(st.lane, loc, zp, keepTop)
    requires 0 <= z
    ensures z in moved <==> z in st.lane
  {
    hide Moved, WellFormed;
    CycledEntriesWereThere(lg, st, loc, zp, keepTop, moved);
    CycledKeepsLower(lg, st, loc, zp, keepTop, moved);
    if z in st.lane {
      var i :| 0 <= i < |st.lane| && st.lane[i] == z;
      assert moved[if i <= zp then i else |moved| - 1] == z;
    }
    if z in moved {
      var i :| 0 <= i < |moved| && moved[i] == z;
      assert st.lane[OldPosition(st, zp, i)] == z;
    }
  }

  lemma CycledIsWellFormed(
      lg: LaneGraph, st: LaneState, loc: nat, zp: nat, keepTop: bool, moved: seq<int>)
    requires WellFormed(lg, st) && IsCycle(lg, st, loc, zp, keepTop) && moved == Moved(st.lane, loc, zp, keepTop)
    ensures WellFormed(lg, st.(lane := moved))
  {
    hide Moved;
    AddressesOfMoved(st.lane, loc, zp, keepTop);
    MovedKeepsMarks(st.lane, loc, zp, keepTop);
  }

  lemma CycledHasTheSameEntries(
      lg: LaneGraph, st: LaneState, loc: nat, zp: nat, keepTop: bool)
    requires WellFormed(lg, st) && IsCycle(lg, st, loc, zp, keepTop)
    ensures forall j :: Cycled(st, loc, zp, keepTop).IsEntry(j) ==>
      && (j <= zp || (keepTop && j == |Moved(st.lane, loc, zp, keepTop)| - 1))
      && st.IsEntry(OldPosition(st, zp, j))
      && Moved(st.lane, loc, zp, keepTop)[j] == st.lane[OldPosition(st, zp, j)]
    ensures forall i :: 0 <= i <= zp && st.IsEntry(i) ==>
      i < |Moved(st.lane, loc, zp, keepTop)| && Moved(st.lane, loc, zp, keepTop)[i] == st.lane[i]
    ensures keepTop ==> zp < |Moved(st.lane, loc, zp, keepTop)| - 1
    ensures keepTop ==>
      Moved(st.lane, loc, zp, keepTop)[|Moved(st.lane, loc, zp, keepTop)| - 1] == st.lane[|st.lane| - 1]
    ensures forall z :: 0 <= z ==> (z in Moved(st.lane, loc, zp, keepTop) <==> z in st.lane)
    ensures WellFormed(lg, Cycled(st, loc, zp, keepTop))
  {
    hide Moved, WellFormed, IsCycle;
    CycleIsOnLane(lg, st, loc, zp, keepTop);
    var moved := Moved(st.lane, loc, zp, keepTop);
    CycledEntriesWereThere(lg, st, loc, zp, keepTop, moved);
    CycledKeepsLower(lg, st, loc, zp, keepTop, moved);
    CycledIsWellFormed(lg, st, loc, zp, keepTop, moved);
    forall z | 0 <= z
      ensures z in moved <==> z in st.lane
    {
      CycledKeepsAddresses(lg, st, loc, zp, keepTop, moved, z);
    }
  }

  lemma CycleIsOnLane(lg: LaneGraph, st: LaneState, loc: nat, zp: nat, keepTop: bool)
    requires WellFormed(lg, st) && IsCycle(lg, st, loc, zp, keepTop)
    ensures loc <= zp < |st.lane| && (keepTop ==> zp < |st.lane| - 1)
  {
  }

  /** Nothing waits above the top of the lane. */
  lemma NothingWaitsAboveTop(lg: LaneGraph, st: LaneState, i: int, s: int)
    requires WellFormed(lg, st) && st.WaitsAbove(s, i)
    ensures i < |st.lane| - 1
  {
    MarksGrow(st.stack, s, |st.stack|);
    assert st.lane[|st.lane| - 1] != MARKER ==> Marks(st.lane, |st.lane| - 1) == Marks(st.lane, |st.lane|);
  }

  lemma WhatWaitsAfterCycle(
      lg: LaneGraph, st: LaneState, loc: nat, zp: nat, keepTop: bool, i: int, s: int)
    requires WellFormed(lg, st) && IsCycle(lg, st, loc, zp, keepTop)
    requires Cycled(st, loc, zp, keepTop).WaitsAbove(s, i)
    ensures i <= zp && st.IsEntry(i) && Moved(st.lane, loc, zp, keepTop)[i] == st.lane[i]
    ensures st.WaitsAbove(s, if i <= loc then i else loc)
  {
    CycledHasTheSameEntries(lg, st, loc, zp, keepTop);
    NothingWaitsAboveTop(lg, Cycled(st, loc, zp, keepTop), i, s);
    assert i <= zp;
    MarksOfMoved(st.lane, loc, zp, keepTop, i);
  }

  lemma CycleReachesBack(
      lg: LaneGraph, zj: nat, st: LaneState, loc: nat, zp: nat, keepTop: bool, i: int, exact: bool)
    requires Core(lg, zj, st, exact) && IsCycle(lg, st, loc, zp, keepTop) && loc < i <= zp && st.IsEntry(i)
    ensures Leads(lg, st.lane[i], st.lane[loc])
  {
    if i == zp {
      StepLeads(lg, st.lane[zp], st.lane[loc]);
    } else {
      LeadsFurther(lg, st.lane[i], st.lane[zp], st.lane[loc]);
    }
  }

  /** Moving the markers makes more addresses wait above those on the cycle, which reach them through
      the cycle; until the contexts of `loc` are added, those are due. */
  lemma CycleKeepsStackNested(
      lg: LaneGraph, zj: nat, st: LaneState, loc: nat, zp: nat, keepTop: bool, exact: bool)
    requires Core(lg, zj, st, exact) && IsCycle(lg, st, loc, zp, keepTop)
    requires WellFormed(lg, Cycled(st, loc, zp, keepTop))
    ensures StackIsNested(lg, Cycled(st, loc, zp, keepTop), st.contexts[st.lane[loc]], exact)
  {
    var st' := Cycled(st, loc, zp, keepTop);
    forall i, s | st'.WaitsAbove(s, i)
      ensures Leads(lg, st'.lane[i], st'.stack[s])
      ensures exact ==> st'.contexts[st'.stack[s]] <= st'.contexts[st'.lane[i]] + st.contexts[st.lane[loc]]
    {
      WhatWaitsAfterCycle(lg, st, loc, zp, keepTop, i, s);
      if loc < i {
        CycleReachesBack(lg, zj, st, loc, zp, keepTop, i, exact);
        LeadsJoin(lg, st.lane[i], st.lane[loc], st.stack[s]);
      }
    }
  }

  lemma CycleKeepsCore(
      lg: LaneGraph, zj: nat, st: LaneState, loc: nat, zp: nat, keepTop: bool, exact: bool)
    requires Core(lg, zj, st, exact) && IsCycle(lg, st, loc, zp, keepTop)
    ensures CoreButFor(lg, zj, Cycled(st, loc, zp, keepTop), st.contexts[st.lane[loc]], exact)
    ensures OnlyTopAbove(Cycled(st, loc, zp, keepTop), zp)
  {
    var st' := Cycled(st, loc, zp, keepTop);
    CycledHasTheSameEntries(lg, st, loc, zp, keepTop);
    CycleKeepsStackNested(lg, zj, st, loc, zp, keepTop, exact);
    forall i, j | i < j && st'.IsEntry(i) && st'.IsEntry(j)
      ensures Leads(lg, st'.lane[i], st'.lane[j])
      ensures exact ==> st.contexts[st'.lane[j]] <= st.contexts[st'.lane[i]]
    {
      assert st.IsEntry(OldPosition(st, zp, i)) && st.IsEntry(OldPosition(st, zp, j));
      assert OldPosition(st, zp, i) < OldPosition(st, zp, j);
    }
  }

  /** On either side of the cycle, the addresses with no marker in between still have none. */
  lemma {:induction false} CycleKeepsLower(
      lg: LaneGraph, st: LaneState, loc: nat, zp: nat, keepTop: bool, j: nat, i: nat)
    requires WellFormed(lg, st) && IsCycle(lg, st, loc, zp, keepTop)
    requires j <= i <= zp && Marks(st.lane, j) == Marks(st.lane, i)
    ensures |st.lane| <= |Moved(st.lane, loc, zp, keepTop)|
    ensures Marks(Moved(st.lane, loc, zp, keepTop), j) == Marks(Moved(st.lane, loc, zp, keepTop), i)
    ensures Marks(Moved(st.lane, loc, zp, keepTop), i) <= Marks(st.lane, i)
  {
    MarksOfMoved(st.lane, loc, zp, keepTop, j);
    MarksOfMoved(st.lane, loc, zp, keepTop, i);
    if j <= loc < i {
      MarksGrow(st.lane, j, loc);
    }
    if loc < i {
      MarksGrow(st.lane, loc, i);
    }
  }

  lemma CycleKeepsOnLane(
      lg: LaneGraph, st: LaneState, loc: nat, zp: nat, keepTop: bool, i: nat, j: nat)
    requires WellFormed(lg, st) && IsCycle(lg, st, loc, zp, keepTop) && i <= zp && i < j && st.IsEntry(j)
    ensures exists k ::
      i < k < |Cycled(st, loc, zp, keepTop).lane| && Cycled(st, loc, zp, keepTop).lane[k] == st.lane[j]
  {
    CycledHasTheSameEntries(lg, st, loc, zp, keepTop);
    var lane := Cycled(st, loc, zp, keepTop).lane;
    var k := if j <= zp then j else |lane| - 1;
    assert lane[k] == st.lane[j];
  }

  lemma CycleKeepsHandled(
      lg: LaneGraph, st: LaneState, loc: nat, zp: nat, keepTop: bool, i: nat, w: nat, exact: bool)
    requires WellFormed(lg, st) && IsCycle(lg, st, loc, zp, keepTop)
    requires WellFormed(lg, Cycled(st, loc, zp, keepTop))
    requires i <= zp && st.IsEntry(i) && Cycled(st, loc, zp, keepTop).IsEntry(i)
    requires Cycled(st, loc, zp, keepTop).lane[i] == st.lane[i]
    requires w < |lg.og| && IsHandled(lg, st, i, w, exact)
    ensures IsHandled(lg, Cycled(st, loc, zp, keepTop), i, w, exact)
  {
    var st' := Cycled(st, loc, zp, keepTop);
    AddressesOfMoved(st.lane, loc, zp, keepTop);
    CycleKeepsLower(lg, st, loc, zp, keepTop, i, i);
    if j :| i < j < |st.lane| && st.lane[j] == w {
      CycleKeepsOnLane(lg, st, loc, zp, keepTop, i, j);
    } else if j: nat :| j <= i && st.lane[j] == w && Marks(st.lane, j) == Marks(st.lane, i) {
      CycleKeepsLower(lg, st, loc, zp, keepTop, j, i);
      assert st'.lane[j] == w;
    } else if s :| st.WaitsAbove(s, i) && st.stack[s] == w {
      assert st'.WaitsAbove(s, i);
    }
  }

  lemma CycleKeepsServed(
      lg: LaneGraph, st: LaneState, loc: nat, zp: nat, keepTop: bool, exact: bool)
    requires WellFormed(lg, st) && IsCycle(lg, st, loc, zp, keepTop)
    ensures WellFormed(lg, Cycled(st, loc, zp, keepTop))
    ensures forall i: nat, w: nat ::
      i <= zp && st.IsEntry(i) && w < |lg.og| && IsServed(lg, st, i, w, exact) ==>
      Cycled(st, loc, zp, keepTop).IsEntry(i) && IsServed(lg, Cycled(st, loc, zp, keepTop), i, w, exact)
  {
    CycledHasTheSameEntries(lg, st, loc, zp, keepTop);
    forall i: nat, w: nat | i <= zp && st.IsEntry(i) && w < |lg.og| && IsServed(lg, st, i, w, exact)
      ensures Cycled(st, loc, zp, keepTop).IsEntry(i) && IsServed(lg, Cycled(st, loc, zp, keepTop), i, w, exact)
    {
      if Vanishes(lg.first[w]) {
        CycleKeepsHandled(lg, st, loc, zp, keepTop, i, w, exact);
      }
    }
  }

  // ----- tracing further -----

  ghost function PushedOnLane(st: LaneState, w: nat): LaneState
    requires w < |st.inLane|
  {
    st.(lane := st.lane + [w], inLane := st.inLane[w := true])
  }

  lemma {:induction false} MarksOfPush(s: seq<int>, x: int)
    ensures forall i :: 0 <= i <= |s| ==> Marks(s + [x], i) == Marks(s, i)
    ensures Marks(s + [x], |s| + 1) == Marks(s, |s|) + if x == MARKER then 1 else 0
  {
    forall i | 0 <= i <= |s|
      ensures Marks(s + [x], i) == Marks(s, i)
    {
      assert (s + [x])[..i] == s[..i];
      MarksOfPrefix(s + [x], s, i);
    }
  }

  /** Everything on the lane leads to `w` and, in an exact run, has its contexts. */
  ghost predicate MayPush(lg: LaneGraph, st: LaneState, w: nat, exact: bool)
    requires WellFormed(lg, st) && w < |lg.og|
  {
    forall i :: st.IsEntry(i) ==>
      && Leads(lg, st.lane[i], w)
      && (exact ==> st.contexts[w] <= st.contexts[st.lane[i]])
  }

  lemma PushKeepsFlags(lg: LaneGraph, st: LaneState, w: nat, exact: bool)
    requires WellFormed(lg, st) && w < |lg.og| && !st.complete[w]
    requires ContextsAreRight(lg, st, exact) && FlagsAreRight(lg, st)
    ensures WellFormed(lg, PushedOnLane(st, w))
    ensures ContextsAreRight(lg, PushedOnLane(st, w), exact) && FlagsAreRight(lg, PushedOnLane(st, w))
  {
    MarksOfPush(st.lane, w);
    assert forall z :: z in PushedOnLane(st, w).lane <==> z in st.lane || z == w;
  }

  lemma PushKeepsNesting(lg: LaneGraph, st: LaneState, w: nat, exact: bool)
    requires WellFormed(lg, st) && w < |lg.og| && WellFormed(lg, PushedOnLane(st, w))
    requires LaneIsNested(lg, st, exact) && StackIsNested(lg, st, {}, exact)
    requires MayPush(lg, st, w, exact)
    ensures LaneIsNested(lg, PushedOnLane(st, w), exact) && StackIsNested(lg, PushedOnLane(st, w), {}, exact)
  {
    var st' := PushedOnLane(st, w);
    MarksOfPush(st.lane, w);
    assert forall i :: st'.IsEntry(i) && i < |st.lane| ==> st.IsEntry(i) && st'.lane[i] == st.lane[i];
    forall i, s | st'.WaitsAbove(s, i)
      ensures i < |st.lane| && st.WaitsAbove(s, i)
    {
      MarksGrow(st.stack, s, |st.stack|);
    }
  }

  lemma PushKeepsCore(lg: LaneGraph, zj: nat, st: LaneState, w: nat, exact: bool)
    requires Core(lg, zj, st, exact) && w < |lg.og| && !st.complete[w]
    requires MayPush(lg, st, w, exact)
    ensures Core(lg, zj, PushedOnLane(st, w), exact)
  {
    PushKeepsFlags(lg, st, w, exact);
    PushKeepsNesting(lg, st, w, exact);
  }

  lemma PushKeepsServed(lg: LaneGraph, st: LaneState, w: nat, exact: bool)
    requires WellFormed(lg, st) && w < |lg.og|
    ensures WellFormed(lg, PushedOnLane(st, w))
    ensures forall i, x: nat :: st.IsEntry(i) && x < |lg.og| && IsServed(lg, st, i, x, exact) ==>
      PushedOnLane(st, w).IsEntry(i) && IsServed(lg, PushedOnLane(st, w), i, x, exact)
    ensures forall i :: st.IsEntry(i) ==>
      PushedOnLane(st, w).IsEntry(i) && IsHandled(lg, PushedOnLane(st, w), i, w, exact)
  {
    var st' := PushedOnLane(st, w);
    MarksOfPush(st.lane, w);
    forall i, x: nat | st.IsEntry(i) && x < |lg.og| && IsServed(lg, st, i, x, exact)
      ensures st'.IsEntry(i) && IsServed(lg, st', i, x, exact)
    {
      if Vanishes(lg.first[x]) {
        if j :| i < j < |st.lane| && st.lane[j] == x {
          assert st'.lane[j] == x;
        } else if j :| 0 <= j <= i && st.lane[j] == x && Marks(st.lane, j) == Marks(st.lane, i) {
          assert st'.lane[j] == x;
        } else if s :| st.WaitsAbove(s, i) && st.stack[s] == x {
          assert st'.WaitsAbove(s, i);
        }
      }
    }
    assert st'.lane[|st.lane|] == w;
  }

  /** Puts a marker under the top of the lane and one on the stack. */
  ghost function MarkedUnderTop(st: LaneState): LaneState
    requires st.lane != []
  {
    st.(lane := st.lane[..|st.lane| - 1] + [MARKER, st.lane[|st.lane| - 1]], stack := st.stack + [MARKER])
  }

  lemma {:induction false} MarksUnderTop(lane: seq<int>)
    requires lane != [] && 0 <= lane[|lane| - 1]
    ensures forall i :: 0 <= i < |lane| ==>
      Marks(lane[..|lane| - 1] + [MARKER, lane[|lane| - 1]], i) == Marks(lane, i)
    ensures Marks(lane[..|lane| - 1] + [MARKER, lane[|lane| - 1]], |lane|) == Marks(lane, |lane|) + 1
    ensures Marks(lane[..|lane| - 1] + [MARKER, lane[|lane| - 1]], |lane| + 1) == Marks(lane, |lane|) + 1
  {
    var bottom, top := lane[..|lane| - 1], lane[|lane| - 1];
    assert lane == bottom + [top];
    assert bottom + [MARKER, top] == bottom + [MARKER] + [top];
    MarksOfPush(bottom, top);
    MarksOfPush(bottom, MARKER);
    MarksOfPush(bottom + [MARKER], top);
  }

  lemma MarkKeepsWaiting(lg: LaneGraph, st: LaneState, i: int, s: int)
    requires WellFormed(lg, st) && st.lane != [] && st.IsEntry(|st.lane| - 1)
    ensures WellFormed(lg, MarkedUnderTop(st))
    ensures i < |st.lane| - 1 && st.WaitsAbove(s, i) ==> MarkedUnderTop(st).WaitsAbove(s, i)
    ensures MarkedUnderTop(st).WaitsAbove(s, i) ==> i < |st.lane| - 1 && st.WaitsAbove(s, i)
  {
    var st' := MarkedUnderTop(st);
    MarksUnderTop(st.lane);
    MarksOfPush(st.stack, MARKER);
    if st'.WaitsAbove(s, i) {
      MarksGrow(st.stack, s, |st.stack|);
      assert s < |st.stack|;
      assert i < |st.lane| - 1 || i == |st.lane|;
    }
  }

  lemma MarkKeepsCore(lg: LaneGraph, zj: nat, st: LaneState, exact: bool)
    requires Core(lg, zj, st, exact) && 1 < |st.lane| && st.IsEntry(|st.lane| - 1)
    ensures Core(lg, zj, MarkedUnderTop(st), exact)
  {
    hide Continues, Leads, Marks;
    var st' := MarkedUnderTop(st);
    var top := |st.lane| - 1;
    MarkKeepsWaiting(lg, st, 0, 0);
    forall i, s | st'.WaitsAbove(s, i)
      ensures i < top && st.WaitsAbove(s, i)
    {
      MarkKeepsWaiting(lg, st, i, s);
    }
    forall z | 0 <= z
      ensures z in st'.lane <==> z in st.lane
    {
      assert st'.lane[|st.lane|] == st.lane[top];
      assert forall i :: 0 <= i < top ==> st'.lane[i] == st.lane[i];
    }
    forall i | st'.IsEntry(i)
      ensures i < top || i == |st.lane|
      ensures st.IsEntry(if i < top then i else top)
    {
    }
  }

  lemma MarkKeepsServed(lg: LaneGraph, st: LaneState, exact: bool)
    requires WellFormed(lg, st) && 1 < |st.lane| && st.IsEntry(|st.lane| - 1)
    ensures WellFormed(lg, MarkedUnderTop(st))
    ensures forall i, x: nat :: i < |st.lane| - 1 && st.IsEntry(i) && x < |lg.og| && IsServed(lg, st, i, x, exact) ==>
      MarkedUnderTop(st).IsEntry(i) && IsServed(lg, MarkedUnderTop(st), i, x, exact)
  {
    hide Marks, Continues;
    var st' := MarkedUnderTop(st);
    MarkKeepsWaiting(lg, st, 0, 0);
    MarksUnderTop(st.lane);
    forall i, x: nat | i < |st.lane| - 1 && st.IsEntry(i) && x < |lg.og| && IsServed(lg, st, i, x, exact)
      ensures st'.IsEntry(i) && IsServed(lg, st', i, x, exact)
    {
      if Vanishes(lg.first[x]) {
        if j :| i < j < |st.lane| && st.lane[j] == x {
          var k := if j == |st.lane| - 1 then j + 1 else j;
          assert i < k < |st'.lane| && st'.lane[k] == x;
        } else if s :| st.WaitsAbove(s, i) && st.stack[s] == x {
          MarkKeepsWaiting(lg, st, i, s);
          assert st'.WaitsAbove(s, i) && st'.stack[s] == x;
        } else if j :| 0 <= j <= i && st.lane[j] == x && Marks(st.lane, j) == Marks(st.lane, i) {
          assert st'.lane[j] == x;
        }
      }
    }
  }

  ghost function PushedOnStack(st: LaneState, w: nat): LaneState {
    st.(stack := st.stack + [w])
  }

  /** An address that everything below some marker leads to, and that has no contexts yet, may be put
      in wait for that marker, the topmost one. */
  lemma WaitKeepsCore(lg: LaneGraph, zj: nat, st: LaneState, w: nat, exact: bool)
    requires Core(lg, zj, st, exact) && w < |lg.og| && st.contexts[w] == {}
    requires forall i :: st.IsEntry(i) && Marks(st.lane, i) < Marks(st.lane, |st.lane|) ==> Leads(lg, st.lane[i], w)
    ensures Core(lg, zj, PushedOnStack(st, w), exact)
  {
    var st' := PushedOnStack(st, w);
    MarksOfPush(st.stack, w);
    assert WellFormed(lg, st');
    forall i, s | st'.WaitsAbove(s, i)
      ensures Leads(lg, st'.lane[i], st'.stack[s])
      ensures exact ==> st'.contexts[st'.stack[s]] <= st'.contexts[st'.lane[i]]
    {
      if s < |st.stack| {
        assert st.WaitsAbove(s, i);
      } else {
        assert st.IsEntry(i) && st'.stack[s] == w;
      }
    }
  }

  lemma WaitKeepsServed(lg: LaneGraph, st: LaneState, w: nat, exact: bool)
    requires WellFormed(lg, st) && w < |lg.og|
    ensures WellFormed(lg, PushedOnStack(st, w))
    ensures forall i, x: nat :: st.IsEntry(i) && x < |lg.og| && IsServed(lg, st, i, x, exact) ==>
      IsServed(lg, PushedOnStack(st, w), i, x, exact)
    ensures forall i :: st.IsEntry(i) && Marks(st.lane, i) < Marks(st.lane, |st.lane|) ==>
      IsHandled(lg, PushedOnStack(st, w), i, w, exact)
  {
    var st' := PushedOnStack(st, w);
    MarksOfPush(st.stack, w);
    forall i, s | st.WaitsAbove(s, i)
      ensures st'.WaitsAbove(s, i) && st'.stack[s] == st.stack[s]
    {
    }
    assert forall i :: st.IsEntry(i) && Marks(st.lane, i) < Marks(st.lane, |st.lane|) ==>
      st'.WaitsAbove(|st.stack|, i) && st'.stack[|st.stack|] == w;
  }

  // ----- popping -----

  lemma {:induction false} MarksOfPop(s: seq<int>)
    requires s != []
    ensures forall i :: 0 <= i < |s| ==> Marks(s[..|s| - 1], i) == Marks(s, i)
    ensures Marks(s, |s|) == Marks(s, |s| - 1) + if s[|s| - 1] == MARKER then 1 else 0
  {
    forall i | 0 <= i < |s|
      ensures Marks(s[..|s| - 1], i) == Marks(s, i)
    {
      assert s[..|s| - 1][..i] == s[..i];
      MarksOfPrefix(s[..|s| - 1], s, i);
    }
  }

  /** Below a marker on top of the lane, everything has the top of the stack waiting above it. */
  lemma TopWaitsAboveAll(lg: LaneGraph, st: LaneState)
    requires WellFormed(lg, st) && st.lane != [] && st.lane[|st.lane| - 1] == MARKER && st.IsWaiting(|st.stack| - 1)
    ensures forall i :: st.IsEntry(i) ==> st.WaitsAbove(|st.stack| - 1, i)
  {
    MarksOfPop(st.lane);
    MarksOfPop(st.stack);
    forall i | st.IsEntry(i)
      ensures st.WaitsAbove(|st.stack| - 1, i)
    {
      MarksGrow(st.lane, i, |st.lane| - 1);
    }
  }

  /** Takes the top off the lane, and with a marker also its marker off the stack. */
  ghost function Popped(st: LaneState): LaneState
    requires st.lane != [] && (st.lane[|st.lane| - 1] == MARKER ==> st.stack != [])
  {
    var popped := st.(lane := st.lane[..|st.lane| - 1]);
    if st.lane[|st.lane| - 1] == MARKER then popped.(stack := st.stack[..|st.stack| - 1]) else popped
  }

  ghost predicate MayPop(lg: LaneGraph, st: LaneState)
    requires WellFormed(lg, st)
  {
    && 1 < |st.lane|
    && (st.IsEntry(|st.lane| - 1) ==> st.complete[st.lane[|st.lane| - 1]] && !st.inLane[st.lane[|st.lane| - 1]])
    && (st.lane[|st.lane| - 1] == MARKER ==> st.stack != [] && st.stack[|st.stack| - 1] == MARKER)
  }

  lemma PopKeepsWaiting(lg: LaneGraph, st: LaneState)
    requires WellFormed(lg, st) && MayPop(lg, st)
    ensures WellFormed(lg, Popped(st))
    ensures forall i, s :: Popped(st).WaitsAbove(s, i) <==> i < |st.lane| - 1 && st.WaitsAbove(s, i)
    ensures forall i :: 0 <= i < |st.lane| ==> Marks(st.lane[..|st.lane| - 1], i) == Marks(st.lane, i)
  {
    hide Marks;
    MarksOfPop(st.lane);
    if st.stack != [] {
      MarksOfPop(st.stack);
    }
  }

  lemma PopKeepsFlags(lg: LaneGraph, st: LaneState)
    requires WellFormed(lg, st) && MayPop(lg, st) && FlagsAreRight(lg, st) && WellFormed(lg, Popped(st))
    ensures FlagsAreRight(lg, Popped(st))
  {
    var top := st.lane[|st.lane| - 1];
    forall z | 0 <= z < |lg.og| && z in st.lane && z != top
      ensures z in Popped(st).lane
    {
      var i :| 0 <= i < |st.lane| && st.lane[i] == z;
      assert Popped(st).lane[i] == z;
    }
  }

  lemma PopKeepsCore(lg: LaneGraph, zj: nat, st: LaneState, exact: bool)
    requires Core(lg, zj, st, exact) && MayPop(lg, st)
    ensures Core(lg, zj, Popped(st), exact)
  {
    PopKeepsWaiting(lg, st);
    PopKeepsFlags(lg, st);
    assert forall i :: Popped(st).IsEntry(i) ==> st.IsEntry(i) && Popped(st).lane[i] == st.lane[i];
  }

  lemma ShorterLaneKeepsHandled(
      lg: LaneGraph, st: LaneState, st': LaneState, i: nat, w: nat, exact: bool)
    requires WellFormed(lg, st) && MayPop(lg, st) && LaneIsNested(lg, st, exact) && WellFormed(lg, st')
    requires st'.lane == st.lane[..|st.lane| - 1]
    requires st'.contexts == st.contexts && st'.complete == st.complete && st'.stack <= st.stack
    requires forall s :: st.WaitsAbove(s, i) ==> st'.WaitsAbove(s, i)
    requires forall j :: 0 <= j < |st.lane| ==> Marks(st'.lane, j) == Marks(st.lane, j)
    requires i < |st.lane| - 1 && st.IsEntry(i) && w < |lg.og| && IsHandled(lg, st, i, w, exact)
    ensures IsHandled(lg, st', i, w, exact)
  {
    if s :| st.WaitsAbove(s, i) && st.stack[s] == w {
      assert st'.WaitsAbove(s, i) && st'.stack[s] == w;
    } else if j :| i < j < |st.lane| && st.lane[j] == w {
      assert st.IsEntry(j);
      assert j < |st'.lane| ==> st'.lane[j] == w;
    } else if j :| 0 <= j <= i && st.lane[j] == w && Marks(st.lane, j) == Marks(st.lane, i) {
      assert st'.lane[j] == w;
    }
  }

  lemma PopKeepsTraced(lg: LaneGraph, st: LaneState, exact: bool)
    requires WellFormed(lg, st) && MayPop(lg, st) && LaneIsNested(lg, st, exact)
    requires TracedBelow(lg, st, |st.lane| - 1, exact) && WellFormed(lg, Popped(st))
    ensures TracedBelow(lg, Popped(st), |st.lane| - 1, exact)
  {
    var st' := Popped(st);
    PopKeepsWaiting(lg, st);
    forall i, w: nat | 0 <= i < |st.lane| - 1 && st'.IsEntry(i) && HasEdge(lg.og, st'.lane[i], w)
      ensures IsServed(lg, st', i, w, exact)
    {
      assert IsTraced(lg, st, i, exact) && IsServed(lg, st, i, w, exact);
      if Vanishes(lg.first[w]) {
        ShorterLaneKeepsHandled(lg, st, st', i, w, exact);
      }
    }
  }

  /** Takes the top off the stack. */
  ghost function Unstacked(st: LaneState): LaneState
    requires st.stack != []
  {
    st.(stack := st.stack[..|st.stack| - 1])
  }

  /** The address on top of the stack need not wait any longer: it is complete, or on the lane above
      everything it waits for. */
  ghost predicate MayUnstack(lg: LaneGraph, st: LaneState)
    requires WellFormed(lg, st)
  {
    && st.stack != [] && st.IsWaiting(|st.stack| - 1)
    && var w := st.stack[|st.stack| - 1];
       st.complete[w] || (st.lane != [] && st.lane[|st.lane| - 1] == w)
  }

  lemma UnstackKeepsCore(lg: LaneGraph, zj: nat, st: LaneState, exact: bool)
    requires Core(lg, zj, st, exact) && MayUnstack(lg, st)
    ensures Core(lg, zj, Unstacked(st), exact)
  {
    hide Marks;
    MarksOfPop(st.stack);
    assert forall i, s :: Unstacked(st).WaitsAbove(s, i) ==> st.WaitsAbove(s, i);
  }

  lemma UnstackKeepsHandled(
      lg: LaneGraph, st: LaneState, st': LaneState, i: nat, w: nat, exact: bool)
    requires WellFormed(lg, st) && MayUnstack(lg, st) && StackIsNested(lg, st, {}, exact)
    requires WellFormed(lg, st') && st' == st.(stack := st'.stack)
    requires forall s :: st.WaitsAbove(s, i) && s < |st.stack| - 1 ==>
      st'.WaitsAbove(s, i) && st'.stack[s] == st.stack[s]
    requires st.IsEntry(i) && w < |lg.og| && IsHandled(lg, st, i, w, exact)
    ensures IsHandled(lg, st', i, w, exact)
  {
    if s :| st.WaitsAbove(s, i) && st.stack[s] == w {
      if s == |st.stack| - 1 && !st.complete[w] {
        MarksGrow(st.stack, s, |st.stack|);
        assert i < |st.lane| - 1 && st'.lane[|st.lane| - 1] == w;
      }
    }
  }

  lemma UnstackKeepsTraced(lg: LaneGraph, st: LaneState, n: int, exact: bool)
    requires WellFormed(lg, st) && MayUnstack(lg, st) && StackIsNested(lg, st, {}, exact)
    requires n <= |st.lane| && TracedBelow(lg, st, n, exact)
    ensures WellFormed(lg, Unstacked(st)) && TracedBelow(lg, Unstacked(st), n, exact)
  {
    var st' := Unstacked(st);
    MarksOfPop(st.stack);
    assert forall i, s :: st.WaitsAbove(s, i) && s < |st.stack| - 1 ==>
      st'.WaitsAbove(s, i) && st'.stack[s] == st.stack[s];
    forall i, w: nat | 0 <= i < n && st'.IsEntry(i) && HasEdge(lg.og, st'.lane[i], w)
      ensures IsServed(lg, st', i, w, exact)
    {
      assert IsTraced(lg, st, i, exact) && IsServed(lg, st, i, w, exact);
      if Vanishes(lg.first[w]) {
        UnstackKeepsHandled(lg, st, st', i, w, exact);
      }
    }
  }

  // ----- completing an address -----

  /** The top of the lane has everything its lanes lead to, for each address on such a lane is either
      complete or on the lane with no marker above it. */
  lemma TracedLaneIsCovered(
      lg: LaneGraph, zj: nat, st: LaneState, path: seq<nat>, z: nat, y: nat, t: int)
    requires Core(lg, zj, st, true) && TracedBelow(lg, st, |st.lane|, true)
    requires IsLane(lg, path, z, y) && Contributes(lg, y, t)
    requires st.complete[z] || IsUnmarked(st, z)
    ensures t in st.contexts[z]
    decreases |path|
  {
    if st.complete[z] {
      assert InContext(lg, z, t);
    } else {
      var i :| st.IsEntry(i) && st.lane[i] == z && Marks(st.lane, i) == Marks(st.lane, |st.lane|);
      assert IsTraced(lg, st, i, true);
      if |path| == 1 {
        var x: nat :| HasEdge(lg.og, y, x) && t != NULL && t in lg.first[x];
        assert IsServed(lg, st, i, x, true);
      } else {
        var w := path[1];
        FirstStep(lg, path, z, y);
        assert IsServed(lg, st, i, w, true);
        FollowTraced(lg, zj, st, i, w, true);
        TracedLaneIsCovered(lg, zj, st, path[1..], w, y, t);
      }
    }
  }

  /** With no marker above lane position `i`, its originators are complete or have none above either. */
  lemma {:induction false} FollowTraced(lg: LaneGraph, zj: nat, st: LaneState, i: int, w: nat, exact: bool)
    requires Core(lg, zj, st, exact) && st.IsEntry(i) && Marks(st.lane, i) == Marks(st.lane, |st.lane|)
    requires w < |lg.og| && Vanishes(lg.first[w]) && IsServed(lg, st, i, w, exact)
    ensures exact ==> st.contexts[w] <= st.contexts[st.lane[i]]
    ensures st.complete[w] || IsUnmarked(st, w)
  {
    if s :| st.WaitsAbove(s, i) && st.stack[s] == w {
      MarksGrow(st.stack, s, |st.stack|);
    } else if j :| i < j < |st.lane| && st.lane[j] == w {
      MarksGrow(st.lane, i, j);
      MarksGrow(st.lane, j, |st.lane|);
      assert st.IsEntry(j);
    } else if j :| 0 <= j <= i && st.lane[j] == w && Marks(st.lane, j) == Marks(st.lane, i) {
      assert st.IsEntry(j);
    }
  }

  /** The top of the lane is traced like all below it: its contexts are all there. */
  lemma TopIsExact(lg: LaneGraph, zj: nat, st: LaneState, t: int)
    requires Core(lg, zj, st, true) && TracedBelow(lg, st, |st.lane|, true) && st.IsEntry(|st.lane| - 1)
    requires InContext(lg, st.lane[|st.lane| - 1], t)
    ensures t in st.contexts[st.lane[|st.lane| - 1]]
  {
    var top := |st.lane| - 1;
    var y: nat :| Reaches(lg, st.lane[top], y) && y < |lg.og| && Contributes(lg, y, t);
    var path :| IsLane(lg, path, st.lane[top], y);
    assert st.IsEntry(top) && Marks(st.lane, top) == Marks(st.lane, |st.lane|);
    assert IsUnmarked(st, st.lane[top]);
    TracedLaneIsCovered(lg, zj, st, path, st.lane[top], y, t);
  }

  ghost function TopCompleted(st: LaneState): LaneState
    requires st.lane != [] && 0 <= st.lane[|st.lane| - 1] < |st.complete|
    requires |st.inLane| == |st.complete|
  {
    var tau := st.lane[|st.lane| - 1];
    st.(inLane := st.inLane[tau := false], complete := st.complete[tau := true])
  }

  /** What the address on top has when it is taken off is complete: everything, in an exact run. */
  lemma CompleteIsRight(lg: LaneGraph, zj: nat, st: LaneState, exact: bool)
    requires Core(lg, zj, st, exact) && st.IsEntry(|st.lane| - 1)
    requires TracedBelow(lg, st, |st.lane|, exact)
    ensures ContextsAreRight(lg, TopCompleted(st), exact)
  {
    var tau := st.lane[|st.lane| - 1];
    if exact {
      forall t | InContext(lg, tau, t)
        ensures t in st.contexts[tau]
      {
        TopIsExact(lg, zj, st, t);
      }
    }
  }

  lemma CompleteKeepsTraced(lg: LaneGraph, st: LaneState, exact: bool)
    requires WellFormed(lg, st) && st.IsEntry(|st.lane| - 1) && TracedBelow(lg, st, |st.lane|, exact)
    ensures WellFormed(lg, TopCompleted(st)) && TracedBelow(lg, TopCompleted(st), |st.lane|, exact)
  {
    var st' := TopCompleted(st);
    assert forall i, s :: st'.WaitsAbove(s, i) <==> st.WaitsAbove(s, i);
    forall i, w: nat | 0 <= i < |st.lane| && st'.IsEntry(i) && HasEdge(lg.og, st'.lane[i], w)
      ensures IsServed(lg, st', i, w, exact)
    {
      assert IsTraced(lg, st, i, exact) && IsServed(lg, st, i, w, exact);
    }
  }

  lemma CompleteKeepsCore(lg: LaneGraph, zj: nat, st: LaneState, exact: bool)
    requires Core(lg, zj, st, exact) && st.IsEntry(|st.lane| - 1)
    requires TracedBelow(lg, st, |st.lane|, exact)
    ensures Core(lg, zj, TopCompleted(st), exact)
    ensures TracedBelow(lg, TopCompleted(st), |st.lane|, exact)
  {
    var st' := TopCompleted(st);
    CompleteIsRight(lg, zj, st, exact);
    CompleteKeepsTraced(lg, st, exact);
    hide ContextsAreRight, TracedBelow, InContext;
    assert forall i, s :: st'.WaitsAbove(s, i) <==> st.WaitsAbove(s, i);
  }

  /** `w` takes over the contexts and the flag of the complete address on top of the lane. */
  ghost function Propagated(st: LaneState, w: nat): LaneState
    requires st.lane != [] && 0 <= st.lane[|st.lane| - 1] < |st.contexts| == |st.complete|
    requires w < |st.contexts|
  {
    st.(contexts := st.contexts[w := st.contexts[st.lane[|st.lane| - 1]]], complete := st.complete[w := true])
  }

  /** The top of the lane is complete, and `w` has the same originators and base contexts. */
  ghost predicate MayPropagate(lg: LaneGraph, st: LaneState, w: nat)
    requires WellFormed(lg, st)
  {
    && st.lane != [] && st.IsEntry(|st.lane| - 1) && w < |lg.og|
    && var tau := st.lane[|st.lane| - 1];
       st.complete[tau] && lg.og[w] == lg.og[tau] && lg.base[w] == lg.base[tau]
  }

  /** Only an address that had no contexts and is not on the lane gains any. */
  lemma PropagationIsRight(lg: LaneGraph, zj: nat, st: LaneState, w: nat, exact: bool)
    requires Core(lg, zj, st, exact) && MayPropagate(lg, st, w)
    ensures ContextsAreRight(lg, Propagated(st, w), exact)
    ensures exact ==> st.contexts[w] <= st.contexts[st.lane[|st.lane| - 1]]
    ensures exact && (st.complete[w] || w in st.lane) ==> Propagated(st, w).contexts == st.contexts
  {
    hide Reaches, InContext;
    var top := |st.lane| - 1;
    var tau := st.lane[top];
    forall t
      ensures InContext(lg, w, t) <==> InContext(lg, tau, t)
    {
      if InContext(lg, w, t) {
        MoreOriginatorsMoreContexts(lg, w, tau, t);
      }
      if InContext(lg, tau, t) {
        MoreOriginatorsMoreContexts(lg, tau, w, t);
      }
    }
    if exact {
      forall t | t in st.contexts[w]
        ensures t in st.contexts[tau]
      {
        assert InContext(lg, w, t);
      }
      if w in st.lane {
        var i :| 0 <= i < |st.lane| && st.lane[i] == w;
        assert st.IsEntry(i) && st.contexts[tau] <= st.contexts[w];
      }
      if st.complete[w] {
        forall t | t in st.contexts[tau]
          ensures t in st.contexts[w]
        {
          assert InContext(lg, tau, t);
        }
      }
      assert st.complete[w] || w in st.lane ==> st.contexts[w] == st.contexts[tau];
    }
  }

  lemma PropagateKeepsNesting(lg: LaneGraph, st: LaneState, w: nat, exact: bool)
    requires WellFormed(lg, st) && MayPropagate(lg, st, w)
    requires LaneIsNested(lg, st, exact) && StackIsNested(lg, st, {}, exact)
    requires exact ==> st.contexts[w] <= st.contexts[st.lane[|st.lane| - 1]]
    requires exact && (st.complete[w] || w in st.lane) ==> Propagated(st, w).contexts == st.contexts
    ensures LaneIsNested(lg, Propagated(st, w), exact) && StackIsNested(lg, Propagated(st, w), {}, exact)
  {
    hide Leads;
    var st' := Propagated(st, w);
    var top := |st.lane| - 1;
    assert exact ==> forall i :: st.IsEntry(i) ==>
      st.lane[i] in st.lane && st'.contexts[st.lane[i]] == st.contexts[st.lane[i]];
    forall i, s | st'.WaitsAbove(s, i)
      ensures Leads(lg, st'.lane[i], st'.stack[s])
      ensures exact ==> st'.contexts[st'.stack[s]] <= st'.contexts[st'.lane[i]]
    {
      assert st.WaitsAbove(s, i);
      assert exact && i < top ==> st.contexts[st.lane[top]] <= st.contexts[st.lane[i]];
    }
  }

  lemma PropagateKeepsCore(lg: LaneGraph, zj: nat, st: LaneState, w: nat, exact: bool)
    requires Core(lg, zj, st, exact) && MayPropagate(lg, st, w)
    ensures Core(lg, zj, Propagated(st, w), exact) && MayPropagate(lg, Propagated(st, w), w)
  {
    PropagationIsRight(lg, zj, st, w, exact);
    PropagateKeepsNesting(lg, st, w, exact);
  }

  lemma PropagateKeepsHandled(
      lg: LaneGraph, st: LaneState, st': LaneState, i: nat, x: nat, exact: bool)
    requires WellFormed(lg, st) && WellFormed(lg, st')
    requires st' == st.(contexts := st'.contexts, complete := st'.complete)
    requires exact ==> forall z :: z in st.lane && 0 <= z ==> st'.contexts[z] == st.contexts[z]
    requires forall z :: 0 <= z < |st.complete| && st.complete[z] ==>
      st'.complete[z] && (exact ==> st'.contexts[z] == st.contexts[z])
    requires st.IsEntry(i) && x < |lg.og| && IsHandled(lg, st, i, x, exact)
    ensures IsHandled(lg, st', i, x, exact)
  {
    assert st.lane[i] in st.lane;
    if st.complete[x] && (exact ==> st.contexts[x] <= st.contexts[st.lane[i]]) {
      assert st'.complete[x];
    } else if s :| st.WaitsAbove(s, i) && st.stack[s] == x {
      assert st'.WaitsAbove(s, i);
    } else if j :| i < j < |st.lane| && st.lane[j] == x {
      assert st'.lane[j] == x;
    } else {
      var j :| 0 <= j <= i && st.lane[j] == x && Marks(st.lane, j) == Marks(st.lane, i);
      assert st'.lane[j] == x && x in st.lane;
    }
  }

  lemma PropagateKeepsTraced(lg: LaneGraph, zj: nat, st: LaneState, w: nat, exact: bool)
    requires Core(lg, zj, st, exact) && MayPropagate(lg, st, w) && TracedBelow(lg, st, |st.lane|, exact)
    ensures WellFormed(lg, Propagated(st, w)) && TracedBelow(lg, Propagated(st, w), |st.lane|, exact)
  {
    var st' := Propagated(st, w);
    PropagationIsRight(lg, zj, st, w, exact);
    forall i, x: nat | 0 <= i < |st.lane| && st'.IsEntry(i) && HasEdge(lg.og, st'.lane[i], x)
      ensures IsServed(lg, st', i, x, exact)
    {
      assert IsTraced(lg, st, i, exact) && IsServed(lg, st, i, x, exact);
      assert st.lane[i] in st.lane;
      if Vanishes(lg.first[x]) {
        PropagateKeepsHandled(lg, st, st', i, x, exact);
      }
    }
  }

  // ----- what complete addresses lead to -----

  lemma CompleteKeepsClosing(lg: LaneGraph, zj: nat, st: LaneState, exact: bool)
    requires Core(lg, zj, st, exact) && st.IsEntry(|st.lane| - 1) && TracedBelow(lg, st, |st.lane|, exact)
    requires IsClosing(lg, st)
    ensures WellFormed(lg, TopCompleted(st)) && IsClosing(lg, TopCompleted(st))
  {
    var st' := TopCompleted(st);
    var top := |st.lane| - 1;
    forall z: nat, w: nat | Continues(lg, z, w) && z < |lg.og| && st'.complete[z]
      ensures w < |lg.og| && (st'.complete[w] || IsUnmarked(st', w))
    {
      if z == st.lane[top] {
        assert IsTraced(lg, st, top, exact) && IsServed(lg, st, top, w, exact);
        FollowTraced(lg, zj, st, top, w, exact);
      }
      assert IsUnmarked(st, w) ==> IsUnmarked(st', w);
    }
  }

  lemma PropagateKeepsClosing(lg: LaneGraph, st: LaneState, w: nat)
    requires WellFormed(lg, st) && MayPropagate(lg, st, w) && IsClosing(lg, st)
    ensures WellFormed(lg, Propagated(st, w)) && IsClosing(lg, Propagated(st, w))
  {
    var st' := Propagated(st, w);
    forall z: nat, x: nat | Continues(lg, z, x) && z < |lg.og| && st'.complete[z]
      ensures x < |lg.og| && (st'.complete[x] || IsUnmarked(st', x))
    {
      assert z == w ==> Continues(lg, st.lane[|st.lane| - 1], x);
      assert IsUnmarked(st, x) ==> IsUnmarked(st', x);
    }
  }

  /** Under a marker on top nothing is unmarked. */
  lemma MarkerMeansClosed(lg: LaneGraph, st: LaneState)
    requires WellFormed(lg, st) && IsClosing(lg, st) && st.lane != [] && st.lane[|st.lane| - 1] == MARKER
    ensures IsSealed(lg, st)
  {
    forall w: nat
      ensures !IsUnmarked(st, w)
    {
      forall j | st.IsEntry(j)
        ensures Marks(st.lane, j) < Marks(st.lane, |st.lane|)
      {
        MarksGrow(st.lane, j, |st.lane| - 1);
      }
    }
  }

  lemma PopKeepsClosing(lg: LaneGraph, st: LaneState)
    requires WellFormed(lg, st) && MayPop(lg, st) && IsClosing(lg, st) && WellFormed(lg, Popped(st))
    ensures IsClosing(lg, Popped(st))
  {
    hide Marks;
    var st' := Popped(st);
    if st.lane[|st.lane| - 1] == MARKER {
      MarkerMeansClosed(lg, st);
    } else {
      MarksOfPop(st.lane);
      forall w: nat | IsUnmarked(st, w) && w < |lg.og|
        ensures st.complete[w] || IsUnmarked(st', w)
      {
        var j :| st.IsEntry(j) && st.lane[j] == w && Marks(st.lane, j) == Marks(st.lane, |st.lane|);
        assert j < |st.lane| - 1 ==> st'.IsEntry(j) && st'.lane[j] == w;
      }
    }
  }

  lemma UnstackKeepsClosing(lg: LaneGraph, st: LaneState)
    requires WellFormed(lg, st) && st.stack != [] && IsClosing(lg, st) && WellFormed(lg, Unstacked(st))
    ensures IsClosing(lg, Unstacked(st))
  {
    assert forall w: nat :: IsUnmarked(st, w) ==> IsUnmarked(Unstacked(st), w);
  }

  lemma OneEntryMeansClosed(lg: LaneGraph, st: LaneState)
    requires WellFormed(lg, st) && IsClosing(lg, st) && |st.lane| == 1 && st.IsEntry(0) && st.complete[st.lane[0]]
    ensures IsSealed(lg, st)
  {
  }
}
