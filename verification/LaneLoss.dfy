/** A run of lane tracing that loses a context: the lane graph that it takes, and the run turn by turn. */
module LaneLoss {
  import opened Lanes
  import opened LaneStates
  import opened ContextAdding
  import opened LaneRuns

  /** The addresses on the run: lanes lead from `a` to `b`, from there to `c` and `f`, from `c` to `d` and `e`,
      and from `e` back to `b`. At `x`, `s` can follow; `y` accepts. */
  datatype Trap = Trap(a: nat, b: nat, c: nat, d: nat, e: nat, f: nat, x: nat, y: nat, s: int, end: int) {

    ghost predicate IsIn(lg: LaneGraph) {
      && lg.Valid() && a < |lg.og| && b < |lg.og| && c < |lg.og| && d < |lg.og| && e < |lg.og| && f < |lg.og|
      && x < |lg.og| && y < |lg.og|
      && AreDistinctAddresses([a, b, c, d, e, f, y])
      && lg.og[a] == [b] && lg.og[b] == [c, f] && lg.og[c] == [x, d, e] && lg.og[d] == [x, d, e]
      && lg.og[e] == [b] && lg.og[f] == [y]
      && lg.first[b] == lg.first[c] == lg.first[d] == lg.first[e] == lg.first[f] == lg.first[y] == {NULL}
      && lg.first[x] == {s} && lg.base[y] == {end} && s != NULL && s != end
    }

    /** Only accepting configs are complete, and these have their context. */
    ghost predicate IsStart(lg: LaneGraph, contexts: seq<set<int>>, complete: seq<bool>) {
      && |contexts| == |complete| == |lg.og| && IsIn(lg)
      && complete[y] && contexts[y] == {end}
      && !complete[a] && !complete[b] && !complete[c] && !complete[d] && !complete[e] && !complete[f]
      && contexts[a] == contexts[b] == contexts[c] == contexts[d] == contexts[e] == contexts[f] == {}
    }

    ghost predicate HasNoSiblings(sibs: seq<seq<nat>>) {
      && a < |sibs| && b < |sibs| && c < |sibs| && d < |sibs| && e < |sibs| && f < |sibs|
      && sibs[a] == sibs[b] == sibs[c] == sibs[d] == sibs[e] == sibs[f] == []
    }
  }

  ghost predicate AreDistinctAddresses(v: seq<nat>) {
    forall i, j :: 0 <= i < j < |v| ==> v[i] != v[j]
  }

  lemma TrapIsDistinct(t: Trap, lg: LaneGraph)
    requires t.IsIn(lg)
    ensures t.a != t.b && t.a != t.c && t.a != t.d && t.a != t.e && t.a != t.f && t.a != t.y
    ensures t.b != t.c && t.b != t.d && t.b != t.e && t.b != t.f && t.b != t.y
    ensures t.c != t.d && t.c != t.e && t.c != t.f && t.c != t.y
    ensures t.d != t.e && t.d != t.f && t.d != t.y && t.e != t.f && t.e != t.y && t.f != t.y
  {
    var v := [t.a, t.b, t.c, t.d, t.e, t.f, t.y];
    assert v[0] == t.a && v[1] == t.b && v[2] == t.c && v[3] == t.d && v[4] == t.e && v[5] == t.f && v[6] == t.y;
  }

  // ----- the least solution has the context -----

  lemma EndIsContext(t: Trap, lg: LaneGraph)
    requires t.IsIn(lg)
    ensures InContext(lg, t.a, t.end)
  {
    ReachesItself(lg, t.a);
    assert lg.og[t.a][0] == t.b && lg.og[t.b][1] == t.f && lg.og[t.f][0] == t.y;
    ReachesFurther(lg, t.a, t.a, t.b);
    ReachesFurther(lg, t.a, t.b, t.f);
    ReachesFurther(lg, t.a, t.f, t.y);
    assert Contributes(lg, t.y, t.end);
  }

  // ----- how contexts go down and markers move up, in the cases that occur -----

  lemma DownTakes(contexts: seq<set<int>>, lane: seq<int>, r: nat, left: set<int>)
    requires r < |lane| && (forall i :: 0 <= i <= r ==> lane[i] < |contexts|) && 0 <= lane[r] && left != {}
    requires left !! contexts[lane[r]]
    ensures AddedDown(contexts, lane, r, left) ==
      AddedDown(contexts[lane[r] := contexts[lane[r]] + left], lane, r - 1, left)
  {
    assert left - contexts[lane[r]] == left;
  }

  lemma DownSkips(contexts: seq<set<int>>, lane: seq<int>, r: nat, left: set<int>)
    requires r < |lane| && (forall i :: 0 <= i <= r ==> lane[i] < |contexts|) && lane[r] < 0
    ensures AddedDown(contexts, lane, r, left) == AddedDown(contexts, lane, r - 1, left)
  {
    if left == {} {
      assert AddedDown(contexts, lane, r - 1, left) == contexts;
    }
  }

  lemma {:induction false} DownStops(contexts: seq<set<int>>, lane: seq<int>, r: nat, left: set<int>)
    requires r < |lane| && (forall i :: 0 <= i <= r ==> lane[i] < |contexts|) && 0 <= lane[r]
    requires left <= contexts[lane[r]]
    ensures AddedDown(contexts, lane, r, left) == contexts
  {
    assert left - contexts[lane[r]] == {};
    assert contexts[lane[r]] + {} == contexts[lane[r]];
    assert contexts[lane[r] := contexts[lane[r]]] == contexts;
    var none: set<int> := {};
    assert AddedDown(contexts, lane, r - 1, none) == contexts;
  }

  lemma {:induction false} NoMarks(lane: seq<int>, lo: nat, hi: nat)
    requires lo <= hi <= |lane| && forall i :: lo <= i < hi ==> lane[i] != MARKER
    ensures Marks(lane, lo) == Marks(lane, hi)
    decreases hi
  {
    if lo < hi {
      NoMarks(lane, lo, hi - 1);
    }
  }

  /** With two markers between `loc` and the top, both move on top. */
  lemma TwoMarkersMove(lane: seq<int>, loc: nat, zp: nat, i: nat, j: nat)
    requires loc < i < j < zp && zp + 1 == |lane| && 0 <= lane[loc] && lane[i] == lane[j] == MARKER
    requires forall k :: loc < k <= zp && k != i && k != j ==> lane[k] != MARKER
    ensures Moved(lane, loc, zp, false) == lane[i := ZERO][j := ZERO] + [MARKER, MARKER]
  {
    NoMarks(lane, loc + 1, i);
    NoMarks(lane, i + 1, j);
    NoMarks(lane, j + 1, zp);
    assert Zeroed(lane, loc + 1, zp) == lane[i := ZERO][j := ZERO];
    assert Markers(2) == [MARKER, MARKER];
  }

  // ----- steps of the run -----

  lemma {:induction false} LoopedCons(
      lg: LaneGraph, w: nat, rest: seq<nat>, st: LaneState, zp: nat, nf: nat, ff: int)
    requires Fits(lg, st) && zp < |st.lane| && w < |lg.og|
    ensures var p := Stepped(lg, st, zp, w, nf, ff);
      Looped(lg, [w] + rest, st, zp, nf, ff) ==
      if p.outcome.Done? then Looped(lg, rest, p.st, zp, p.nf, p.ff) else p
  {
    assert ([w] + rest)[1..] == rest;
  }

  lemma FailsFirst(lg: LaneGraph, st: LaneState, zp: nat, w: nat)
    requires Fits(lg, st) && zp < |st.lane| && w < |lg.og| && lg.first[w] == {NULL}
    requires !st.complete[w] && !st.inLane[w]
    ensures Stepped(lg, st, zp, w, 0, -1) == Progress(Done, PushedOnLane(st, w), 1, w)
    ensures Fits(lg, PushedOnLane(st, w))
  {
    assert lg.first[w] - {NULL} == {};
  }

  lemma FailsSecond(lg: LaneGraph, st: LaneState, zp: nat, w: nat, ff: nat)
    requires Fits(lg, st) && zp + 2 == |st.lane| && w < |lg.og| && lg.first[w] == {NULL}
    requires !st.complete[w] && !st.inLane[w]
    ensures Stepped(lg, st, zp, w, 1, ff) == Progress(Done, PushedOnStack(MarkedUnderTop(st), w), 2, ff)
    ensures Fits(lg, PushedOnStack(MarkedUnderTop(st), w))
  {
    assert lg.first[w] - {NULL} == {};
  }

  lemma CompleteAdds(lg: LaneGraph, st: LaneState, zp: nat, w: nat, nf: nat, ff: int)
    requires Fits(lg, st) && zp < |st.lane| && w < |lg.og| && lg.first[w] == {NULL} && st.complete[w]
    ensures Stepped(lg, st, zp, w, nf, ff) == Progress(Done, Adding(lg, st, zp, st.contexts[w]), nf, ff)
  {
    assert lg.first[w] - {NULL} == {};
  }

  lemma OnLaneCloses(lg: LaneGraph, st: LaneState, zp: nat, w: nat, nf: nat, ff: int)
    requires Fits(lg, st) && zp < |st.lane| && w < |lg.og| && lg.first[w] == {NULL}
    requires !st.complete[w] && st.inLane[w]
    ensures Stepped(lg, st, zp, w, nf, ff) == Progress(Done, Closing(lg, st, zp, w, nf), nf, ff)
  {
    assert lg.first[w] - {NULL} == {};
  }

  lemma TerminalAdds(lg: LaneGraph, st: LaneState, zp: nat, w: nat, s: int, nf: nat, ff: int)
    requires Fits(lg, st) && zp < |st.lane| && w < |lg.og| && lg.first[w] == {s} && s != NULL
    ensures Stepped(lg, st, zp, w, nf, ff) == Progress(Done, Adding(lg, st, zp, {s}), nf, ff)
  {
    assert lg.first[w] - {NULL} == {s};
  }

  // ----- the run -----

  /** A stage of the run: the lane, the stack, the contexts of `a` to `f`, and how many of these are on the lane. */
  ghost predicate IsStage(
      t: Trap, lg: LaneGraph, st: LaneState, lane: seq<int>, stack: seq<int>, have: seq<set<int>>, n: nat)
    requires |have| == 6
  {
    && Fits(lg, st) && t.IsIn(lg) && st.lane == lane && st.stack == stack
    && st.contexts[t.a] == have[0] && st.contexts[t.b] == have[1] && st.contexts[t.c] == have[2]
    && st.contexts[t.d] == have[3] && st.contexts[t.e] == have[4] && st.contexts[t.f] == have[5]
    && st.contexts[t.y] == {t.end} && st.complete[t.y]
    && !st.complete[t.a] && !st.complete[t.b] && !st.complete[t.c]
    && !st.complete[t.d] && !st.complete[t.e] && !st.complete[t.f]
    && (st.inLane[t.a] <==> 0 < n) && (st.inLane[t.b] <==> 1 < n) && (st.inLane[t.c] <==> 2 < n)
    && (st.inLane[t.d] <==> 3 < n) && (st.inLane[t.e] <==> 4 < n) && (st.inLane[t.f] <==> 5 < n)
  }

  /** The next address in order goes on the lane. */
  lemma StagePushes(
      t: Trap, lg: LaneGraph, st: LaneState, lane: seq<int>, stack: seq<int>, have: seq<set<int>>, n: nat, w: nat)
    requires |have| == 6 && IsStage(t, lg, st, lane, stack, have, n) && n < 6
    requires w == [t.a, t.b, t.c, t.d, t.e, t.f][n]
    ensures w < |lg.og| && !st.complete[w] && !st.inLane[w]
    ensures IsStage(t, lg, PushedOnLane(st, w), lane + [w], stack, have, n + 1)
  {
    TrapIsDistinct(t, lg);
  }

  lemma StageWaits(
      t: Trap, lg: LaneGraph, st: LaneState, lane: seq<int>, top: nat, stack: seq<int>, have: seq<set<int>>, n: nat,
      w: nat)
    requires |have| == 6 && IsStage(t, lg, st, lane + [top], stack, have, n) && w < |lg.og|
    ensures IsStage(t, lg, PushedOnStack(MarkedUnderTop(st), w), lane + [MARKER, top], stack + [MARKER, w], have, n)
  {
    assert (lane + [top])[..|lane|] == lane;
  }

  lemma FirstTurn(
      t: Trap, lg: LaneGraph, sibs: seq<seq<nat>>, contexts: seq<set<int>>, complete: seq<bool>)
    returns (st: LaneState)
    requires t.IsStart(lg, contexts, complete)
    ensures IsStage(t, lg, st, [t.a, t.b], [], [{}, {}, {}, {}, {}, {}], 2)
    ensures Turned(lg, sibs, t.a, Tracing(Started(contexts, complete, t.a))) == Tracing(st)
  {
    hide Stepped, AreDistinctAddresses;
    var st0 := StartIsStage(t, lg, contexts, complete);
    StagePushes(t, lg, st0, [t.a], [], [{}, {}, {}, {}, {}, {}], 1, t.b);
    LoopedCons(lg, t.b, [], st0, 0, 0, -1);
    FailsFirst(lg, st0, 0, t.b);
    st := PushedOnLane(st0, t.b);
    assert lg.og[t.a] == [t.b] + [] && [t.a] + [t.b] == [t.a, t.b];
  }

  lemma StartIsStage(t: Trap, lg: LaneGraph, contexts: seq<set<int>>, complete: seq<bool>)
    returns (st: LaneState)
    requires t.IsStart(lg, contexts, complete)
    ensures st == Started(contexts, complete, t.a) && IsStage(t, lg, st, [t.a], [], [{}, {}, {}, {}, {}, {}], 1)
  {
    TrapIsDistinct(t, lg);
    st := Started(contexts, complete, t.a);
  }

  /** Two fresh originators: the first goes on the lane, the second waits. */
  lemma TwoFail(
      t: Trap, lg: LaneGraph, st: LaneState, lane: seq<int>, stack: seq<int>, have: seq<set<int>>, n: nat, zp: nat,
      v: nat, w: nat)
    returns (st': LaneState)
    requires |have| == 6 && IsStage(t, lg, st, lane, stack, have, n) && n < 5 && zp + 1 == |lane|
    requires v == [t.a, t.b, t.c, t.d, t.e, t.f][n] && lg.first[v] == {NULL}
    requires w < |lg.og| && w != v && lg.first[w] == {NULL}
    requires !st.complete[w] && !st.inLane[w]
    ensures IsStage(t, lg, st', lane + [MARKER, v], stack + [MARKER, w], have, n + 1)
    ensures Looped(lg, [v, w], st, zp, 0, -1) == Progress(Done, st', 2, v)
  {
    hide Stepped, AreDistinctAddresses, MarkedUnderTop;
    StagePushes(t, lg, st, lane, stack, have, n, v);
    var st1 := PushedOnLane(st, v);
    LoopedCons(lg, v, [w], st, zp, 0, -1);
    FailsFirst(lg, st, zp, v);
    LoopedCons(lg, w, [], st1, zp, 1, v);
    FailsSecond(lg, st1, zp, w, v);
    StageWaits(t, lg, st1, lane, v, stack, have, n + 1, w);
    st' := PushedOnStack(MarkedUnderTop(st1), w);
    assert [v] + [w] == [v, w] && [w] + [] == [w];
  }

  lemma SecondTurn(t: Trap, lg: LaneGraph, sibs: seq<seq<nat>>, st: LaneState)
    returns (st': LaneState)
    requires IsStage(t, lg, st, [t.a, t.b], [], [{}, {}, {}, {}, {}, {}], 2)
    ensures IsStage(t, lg, st', [t.a, t.b, MARKER, t.c], [MARKER, t.f], [{}, {}, {}, {}, {}, {}], 3)
    ensures Turned(lg, sibs, t.a, Tracing(st)) == Tracing(st')
  {
    hide Looped, AreDistinctAddresses;
    TrapIsDistinct(t, lg);
    st' := TwoFail(t, lg, st, [t.a, t.b], [], [{}, {}, {}, {}, {}, {}], 2, 1, t.c, t.f);
    assert [t.a, t.b] + [MARKER, t.c] == [t.a, t.b, MARKER, t.c];
    assert [] + [MARKER, t.f] == [MARKER, t.f];
  }

  lemma TerminalGoesDown(t: Trap, lg: LaneGraph, st: LaneState) returns (st': LaneState)
    requires IsStage(t, lg, st, [t.a, t.b, MARKER, t.c], [MARKER, t.f], [{}, {}, {}, {}, {}, {}], 3)
    ensures st' == Adding(lg, st, 3, {t.s})
    ensures IsStage(t, lg, st', [t.a, t.b, MARKER, t.c], [MARKER, t.f], [{t.s}, {t.s}, {t.s}, {}, {}, {}], 3)
  {
    hide AddedDown, AreDistinctAddresses;
    TrapIsDistinct(t, lg);
    var c := DownToA(st.contexts, st.lane, t.a, t.b, t.c, {t.s});
    st' := st.(contexts := c);
  }

  lemma DownToA(contexts: seq<set<int>>, lane: seq<int>, a: nat, b: nat, c: nat, s: set<int>)
    returns (c0: seq<set<int>>)
    requires lane == [a, b, MARKER, c] && a < |contexts| && b < |contexts| && c < |contexts|
    requires a != b && a != c && b != c && s != {} && contexts[a] == contexts[b] == contexts[c] == {}
    ensures c0 == AddedDown(contexts, lane, 3, s) == contexts[c := s][b := s][a := s]
  {
    hide AddedDown;
    assert {} + s == s;
    DownTakes(contexts, lane, 3, s);
    var c3 := contexts[c := s];
    DownSkips(c3, lane, 2, s);
    DownTakes(c3, lane, 1, s);
    var c1 := c3[b := s];
    DownTakes(c1, lane, 0, s);
    c0 := c1[a := s];
    DownEnds(c0, lane, s);
  }

  lemma {:induction false} DownEnds(contexts: seq<set<int>>, lane: seq<int>, s: set<int>)
    ensures AddedDown(contexts, lane, -1, s) == contexts
  {
  }

  lemma ThirdTurn(t: Trap, lg: LaneGraph, sibs: seq<seq<nat>>, st: LaneState)
    returns (st': LaneState)
    requires IsStage(t, lg, st, [t.a, t.b, MARKER, t.c], [MARKER, t.f], [{}, {}, {}, {}, {}, {}], 3)
    ensures IsStage(t, lg, st', [t.a, t.b, MARKER, t.c, MARKER, t.d], [MARKER, t.f, MARKER, t.e],
      [{t.s}, {t.s}, {t.s}, {}, {}, {}], 4)
    ensures Turned(lg, sibs, t.a, Tracing(st)) == Tracing(st')
  {
    hide Stepped, Looped, Adding, AreDistinctAddresses;
    TrapIsDistinct(t, lg);
    LoopedCons(lg, t.x, [t.d, t.e], st, 3, 0, -1);
    TerminalAdds(lg, st, 3, t.x, t.s, 0, -1);
    var st1 := TerminalGoesDown(t, lg, st);
    st' := TwoFail(t, lg, st1, [t.a, t.b, MARKER, t.c], [MARKER, t.f], [{t.s}, {t.s}, {t.s}, {}, {}, {}], 3, 3,
      t.d, t.e);
    assert [t.x] + [t.d, t.e] == lg.og[t.c];
    assert [t.a, t.b, MARKER, t.c] + [MARKER, t.d] == [t.a, t.b, MARKER, t.c, MARKER, t.d];
    assert [MARKER, t.f] + [MARKER, t.e] == [MARKER, t.f, MARKER, t.e];
  }

  lemma {:induction false} DownToC(contexts: seq<set<int>>, lane: seq<int>, c: nat, d: nat, s: set<int>)
    requires 6 == |lane| && lane[3] == c && lane[4] == MARKER && lane[5] == d && c < |contexts| && d < |contexts|
    requires (forall i :: 0 <= i < 6 ==> lane[i] < |contexts|) && c != d && s != {}
    requires contexts[d] == {} && contexts[c] == s
    ensures AddedDown(contexts, lane, 5, s) == contexts[d := s]
  {
    hide AddedDown;
    assert {} + s == s;
    DownTakes(contexts, lane, 5, s);
    DownSkips(contexts[d := s], lane, 4, s);
    DownStops(contexts[d := s], lane, 3, s);
  }

  /** The address on top is an originator of itself: nothing moves and nothing is added. */
  lemma ClosesOnItself(lg: LaneGraph, st: LaneState, zp: nat, w: nat)
    requires Fits(lg, st) && zp + 1 == |st.lane| && w < |lg.og| && st.lane[zp] == w
    requires forall i :: 0 <= i < zp ==> st.lane[i] != w
    ensures Closing(lg, st, zp, w, 0) == st
  {
    hide AddedDown;
    FirstPlace(st.lane, w, 0, zp);
    assert Moved(st.lane, zp, zp, false) == st.lane;
    assert Cycled(st, zp, zp, false) == st;
    DownStops(st.contexts, st.lane, zp, st.contexts[w]);
  }

  lemma FourthTurn(t: Trap, lg: LaneGraph, sibs: seq<seq<nat>>, st: LaneState)
    returns (st': LaneState)
    requires IsStage(t, lg, st, [t.a, t.b, MARKER, t.c, MARKER, t.d], [MARKER, t.f, MARKER, t.e],
      [{t.s}, {t.s}, {t.s}, {}, {}, {}], 4)
    ensures IsStage(t, lg, st', [t.a, t.b, MARKER, t.c, MARKER, t.d, t.e], [MARKER, t.f, MARKER, t.e],
      [{t.s}, {t.s}, {t.s}, {t.s}, {}, {}], 5)
    ensures Turned(lg, sibs, t.a, Tracing(st)) == Tracing(st')
  {
    hide Stepped, Adding, Closing, AreDistinctAddresses;
    TrapIsDistinct(t, lg);
    var lane := [t.a, t.b, MARKER, t.c, MARKER, t.d];
    LoopedCons(lg, t.x, [t.d, t.e], st, 5, 0, -1);
    TerminalAdds(lg, st, 5, t.x, t.s, 0, -1);
    var st1 := TerminalGoesToD(t, lg, st, lane);
    LoopedCons(lg, t.d, [t.e], st1, 5, 0, -1);
    OnLaneCloses(lg, st1, 5, t.d, 0, -1);
    ClosesOnItself(lg, st1, 5, t.d);
    StagePushes(t, lg, st1, lane, st.stack, [{t.s}, {t.s}, {t.s}, {t.s}, {}, {}], 4, t.e);
    LoopedCons(lg, t.e, [], st1, 5, 0, -1);
    FailsFirst(lg, st1, 5, t.e);
    st' := PushedOnLane(st1, t.e);
    assert lg.og[t.d] == [t.x] + [t.d, t.e] && [t.d, t.e] == [t.d] + [t.e] && [t.e] == [t.e] + [];
    assert lane + [t.e] == [t.a, t.b, MARKER, t.c, MARKER, t.d, t.e];
  }

  lemma TerminalGoesToD(t: Trap, lg: LaneGraph, st: LaneState, lane: seq<int>)
    returns (st': LaneState)
    requires lane == [t.a, t.b, MARKER, t.c, MARKER, t.d]
    requires IsStage(t, lg, st, lane, [MARKER, t.f, MARKER, t.e], [{t.s}, {t.s}, {t.s}, {}, {}, {}], 4)
    ensures st' == Adding(lg, st, 5, {t.s})
    ensures IsStage(t, lg, st', lane, [MARKER, t.f, MARKER, t.e], [{t.s}, {t.s}, {t.s}, {t.s}, {}, {}], 4)
  {
    hide AddedDown, AreDistinctAddresses;
    TrapIsDistinct(t, lg);
    DownToC(st.contexts, st.lane, t.c, t.d, {t.s});
    st' := st.(contexts := st.contexts[t.d := {t.s}]);
  }

  // ----- the lane is popped -----

  /** An address that waits goes on the lane. */
  lemma {:induction false} PopsToWaiting(sibs: seq<seq<nat>>, zj: nat, st: LaneState, w: nat, top: nat)
    requires st.lane != [] && st.lane[|st.lane| - 1] == MARKER && top + 1 == |st.stack| && st.stack[top] == w
    requires w < |st.complete| == |st.inLane| && !st.complete[w]
    ensures LanePopped(sibs, zj, st) == (Unstacked(PushedOnLane(st, w)), false)
  {
  }

  lemma {:induction false} PopsMarker(sibs: seq<seq<nat>>, zj: nat, st: LaneState, top: nat, n: nat)
    requires n + 1 == |st.lane| && st.lane[n] == MARKER && top + 1 == |st.stack| && st.stack[top] == MARKER
    ensures LanePopped(sibs, zj, st) == LanePopped(sibs, zj, st.(lane := st.lane[..n], stack := st.stack[..top]))
  {
  }

  lemma PopsAddress(sibs: seq<seq<nat>>, zj: nat, st: LaneState, z: nat, n: nat)
    requires n + 1 == |st.lane| && 0 < n && st.lane[n] == z < |st.complete| == |st.inLane| && z < |sibs|
    requires sibs[z] == []
    ensures LanePopped(sibs, zj, st) == LanePopped(sibs, zj,
      st.(inLane := st.inLane[z := false], complete := st.complete[z := true], lane := st.lane[..n]))
  {
  }

  ghost predicate MayPopAll(sibs: seq<seq<nat>>, st: LaneState) {
    && |st.complete| == |st.inLane|
    && forall i :: 0 <= i < |st.lane| ==>
      st.lane[i] == ZERO || (0 <= st.lane[i] < |st.complete| && st.lane[i] < |sibs| && sibs[st.lane[i]] == [])
  }

  /** Without markers, everything on the lane becomes complete and nothing gets more contexts. */
  lemma PopsAll(sibs: seq<seq<nat>>, zj: nat, st: LaneState) returns (st': LaneState)
    requires MayPopAll(sibs, st) && st.lane != [] && st.lane[0] == zj
    ensures LanePopped(sibs, zj, st) == (st', true) && st'.contexts == st.contexts && |st'.complete| == |st.complete|
    ensures forall z :: 0 <= z < |st.complete| && (st.complete[z] || z in st.lane) ==> st'.complete[z]
    decreases |st.lane|
  {
    var n := |st.lane| - 1;
    if n == 0 {
      st' := TopCompleted(st);
    } else {
      var z := st.lane[n];
      assert st.lane == st.lane[..n] + [z];
      if z == ZERO {
        st' := PopsAll(sibs, zj, st.(lane := st.lane[..n]));
      } else {
        PopsAddress(sibs, zj, st, z, n);
        st' := PopsAll(sibs, zj,
          st.(inLane := st.inLane[z := false], complete := st.complete[z := true], lane := st.lane[..n]));
      }
    }
  }

  /** `e` closes the cycle to `b`: two markers move on top, and `e` has or gets what `b` has. */
  lemma ClosesCycle(
      t: Trap, lg: LaneGraph, st: LaneState, lane: seq<int>, stack: seq<int>, zp: nat, i: nat, j: nat, more: set<int>)
    returns (st': LaneState)
    requires IsStage(t, lg, st, lane, stack, [{t.s}, {t.s}, {t.s}, {t.s}, more, {}], 5) && zp + 1 == |lane|
    requires 1 < i < j < zp && lane[0] == t.a && lane[1] == t.b && lane[zp] == t.e && lane[i] == lane[j] == MARKER
    requires forall k :: 1 < k <= zp && k != i && k != j ==> lane[k] != MARKER
    requires more == {t.s} || (more == {} && lane[zp - 1] == t.d)
    ensures st' == Closing(lg, st, zp, t.b, 0)
    ensures IsStage(t, lg, st', lane[i := ZERO][j := ZERO] + [MARKER, MARKER], stack,
      [{t.s}, {t.s}, {t.s}, {t.s}, {t.s}, {}], 5)
  {
    hide AddedDown, Moved, AreDistinctAddresses;
    TrapIsDistinct(t, lg);
    FirstPlace(lane, t.b, 0, 1);
    TwoMarkersMove(lane, 1, zp, i, j);
    var lane' := lane[i := ZERO][j := ZERO] + [MARKER, MARKER];
    var s := {t.s};
    if more == s {
      DownStops(st.contexts, lane', zp, s);
      assert st.contexts[t.e := s] == st.contexts;
    } else {
      assert {} + s == s && lane'[zp - 1] == t.d && lane'[zp] == t.e;
      DownTakes(st.contexts, lane', zp, s);
      DownStops(st.contexts[t.e := s], lane', zp - 1, s);
    }
    st' := st.(lane := lane', contexts := st.contexts[t.e := s]);
  }

  /** The only originator of `e` is `b`, so the lane is popped. */
  lemma {:induction false} CycleThenPop(
      t: Trap, lg: LaneGraph, sibs: seq<seq<nat>>, st: LaneState, st1: LaneState, zp: nat)
    requires Fits(lg, st) && t.IsIn(lg) && zp + 1 == |st.lane| && st.lane[zp] == t.e
    requires !st.complete[t.b] && st.inLane[t.b] && st1 == Closing(lg, st, zp, t.b, 0)
    ensures var q := LanePopped(sibs, t.a, st1);
      Turned(lg, sibs, t.a, Tracing(st)) == if q.1 then Ended(q.0) else Tracing(q.0)
  {
    hide Stepped, Closing;
    LoopedCons(lg, t.b, [], st, zp, 0, -1);
    OnLaneCloses(lg, st, zp, t.b, 0, -1);
    assert lg.og[t.e] == [t.b] + [];
  }

  lemma FifthTurn(t: Trap, lg: LaneGraph, sibs: seq<seq<nat>>, st: LaneState)
    returns (st': LaneState)
    requires IsStage(t, lg, st, [t.a, t.b, MARKER, t.c, MARKER, t.d, t.e], [MARKER, t.f, MARKER, t.e],
      [{t.s}, {t.s}, {t.s}, {t.s}, {}, {}], 5)
    ensures IsStage(t, lg, st', [t.a, t.b, ZERO, t.c, ZERO, t.d, t.e, MARKER, MARKER, t.e], [MARKER, t.f, MARKER],
      [{t.s}, {t.s}, {t.s}, {t.s}, {t.s}, {}], 5)
    ensures Turned(lg, sibs, t.a, Tracing(st)) == Tracing(st')
  {
    hide Closing, LanePopped, Turned, AreDistinctAddresses;
    TrapIsDistinct(t, lg);
    var lane: seq<int> := [t.a, t.b, MARKER, t.c, MARKER, t.d, t.e];
    var st1 := ClosesCycle(t, lg, st, lane, st.stack, 6, 2, 4, {});
    CycleThenPop(t, lg, sibs, st, st1, 6);
    assert lane[2 := ZERO][4 := ZERO] + [MARKER, MARKER]
      == [t.a, t.b, ZERO, t.c, ZERO, t.d, t.e, MARKER, MARKER];
    PopsToWaiting(sibs, t.a, st1, t.e, 3);
    st' := Unstacked(PushedOnLane(st1, t.e));
    assert st1.stack[..3] == [MARKER, t.f, MARKER];
  }

  lemma SixthTurn(t: Trap, lg: LaneGraph, sibs: seq<seq<nat>>, st: LaneState)
    returns (st': LaneState)
    requires IsStage(t, lg, st, [t.a, t.b, ZERO, t.c, ZERO, t.d, t.e, MARKER, MARKER, t.e], [MARKER, t.f, MARKER],
      [{t.s}, {t.s}, {t.s}, {t.s}, {t.s}, {}], 5)
    ensures IsStage(t, lg, st', [t.a, t.b, ZERO, t.c, ZERO, t.d, t.e, ZERO, ZERO, t.e, MARKER, t.f], [MARKER],
      [{t.s}, {t.s}, {t.s}, {t.s}, {t.s}, {}], 6)
    ensures Turned(lg, sibs, t.a, Tracing(st)) == Tracing(st')
  {
    hide Closing, LanePopped, Turned, AreDistinctAddresses;
    TrapIsDistinct(t, lg);
    var lane: seq<int> := [t.a, t.b, ZERO, t.c, ZERO, t.d, t.e, MARKER, MARKER, t.e];
    var st1 := ClosesCycle(t, lg, st, lane, st.stack, 9, 7, 8, {t.s});
    CycleThenPop(t, lg, sibs, st, st1, 9);
    var popped: seq<int> := [t.a, t.b, ZERO, t.c, ZERO, t.d, t.e, ZERO, ZERO, t.e, MARKER];
    assert lane[7 := ZERO][8 := ZERO] + [MARKER, MARKER] == popped + [MARKER];
    PopsMarker(sibs, t.a, st1, 2, 11);
    var st2 := st1.(lane := st1.lane[..11], stack := st1.stack[..2]);
    assert st2.lane == popped && st2.stack == [MARKER, t.f];
    PopsToWaiting(sibs, t.a, st2, t.f, 1);
    st' := Unstacked(PushedOnLane(st2, t.f));
    assert st2.stack[..1] == [MARKER];
  }

  /** What `f` adds stops at the lower place of `e`: the addresses below never get it. */
  lemma EndStopsAtE(t: Trap, lg: LaneGraph, st: LaneState, lane: seq<int>) returns (st': LaneState)
    requires lane == [t.a, t.b, ZERO, t.c, ZERO, t.d, t.e, ZERO, ZERO, t.e, MARKER, t.f]
    requires IsStage(t, lg, st, lane, [MARKER], [{t.s}, {t.s}, {t.s}, {t.s}, {t.s}, {}], 6)
    ensures st' == Adding(lg, st, 11, {t.end})
    ensures IsStage(t, lg, st', lane, [MARKER], [{t.s}, {t.s}, {t.s}, {t.s}, {t.s, t.end}, {t.end}], 6)
  {
    hide AddedDown, AreDistinctAddresses;
    TrapIsDistinct(t, lg);
    var u := {t.end};
    var c0 := st.contexts;
    assert {} + u == u && {t.s} + u == {t.s, t.end};
    DownTakes(c0, lane, 11, u);
    var c1 := c0[t.f := u];
    DownSkips(c1, lane, 10, u);
    DownTakes(c1, lane, 9, u);
    var c2 := c1[t.e := {t.s, t.end}];
    DownSkips(c2, lane, 8, u);
    DownSkips(c2, lane, 7, u);
    DownStops(c2, lane, 6, u);
    st' := st.(contexts := c2);
  }

  lemma LastTurn(t: Trap, lg: LaneGraph, sibs: seq<seq<nat>>, st: LaneState)
    returns (st': LaneState)
    requires IsStage(t, lg, st, [t.a, t.b, ZERO, t.c, ZERO, t.d, t.e, ZERO, ZERO, t.e, MARKER, t.f], [MARKER],
      [{t.s}, {t.s}, {t.s}, {t.s}, {t.s}, {}], 6)
    requires t.HasNoSiblings(sibs)
    ensures Turned(lg, sibs, t.a, Tracing(st)) == Ended(st')
    ensures |st'.complete| == |st'.contexts| == |lg.og| && st'.complete[t.a] && st'.contexts[t.a] == {t.s}
  {
    hide Stepped, Adding, LanePopped, AreDistinctAddresses;
    TrapIsDistinct(t, lg);
    var lane: seq<int> := [t.a, t.b, ZERO, t.c, ZERO, t.d, t.e, ZERO, ZERO, t.e, MARKER, t.f];
    LoopedCons(lg, t.y, [], st, 11, 0, -1);
    CompleteAdds(lg, st, 11, t.y, 0, -1);
    assert lg.og[t.f] == [t.y] + [];
    var st1 := EndStopsAtE(t, lg, st, lane);
    st' := LastPop(t, lg, sibs, st1, lane);
  }

  lemma LastPop(t: Trap, lg: LaneGraph, sibs: seq<seq<nat>>, st: LaneState, lane: seq<int>)
    returns (st': LaneState)
    requires lane == [t.a, t.b, ZERO, t.c, ZERO, t.d, t.e, ZERO, ZERO, t.e, MARKER, t.f]
    requires IsStage(t, lg, st, lane, [MARKER], [{t.s}, {t.s}, {t.s}, {t.s}, {t.s, t.end}, {t.end}], 6)
    requires t.HasNoSiblings(sibs)
    ensures LanePopped(sibs, t.a, st) == (st', true)
    ensures |st'.complete| == |st'.contexts| == |lg.og| && st'.complete[t.a] && st'.contexts[t.a] == {t.s}
  {
    hide LanePopped, AreDistinctAddresses;
    PopsAddress(sibs, t.a, st, t.f, 11);
    var st1 := st.(inLane := st.inLane[t.f := false], complete := st.complete[t.f := true], lane := st.lane[..11]);
    assert st1.lane[10] == MARKER;
    PopsMarker(sibs, t.a, st1, 0, 10);
    var st2 := st1.(lane := st1.lane[..10], stack := st1.stack[..0]);
    assert st2.lane == lane[..10] && lane[..10] == [t.a, t.b, ZERO, t.c, ZERO, t.d, t.e, ZERO, ZERO, t.e];
    st' := PopsAll(sibs, t.a, st2);
    assert st2.lane[0] == t.a;
  }

  /** The run from `a` ends after seven turns, with `a` complete and the end mark missing from its contexts. */
  lemma RunLosesContext(
      t: Trap, lg: LaneGraph, sibs: seq<seq<nat>>, contexts: seq<set<int>>, complete: seq<bool>)
    returns (st: LaneState)
    requires t.IsStart(lg, contexts, complete) && t.HasNoSiblings(sibs)
    ensures Turns(lg, sibs, t.a, Tracing(Started(contexts, complete, t.a)), 7) == Ended(st)
    ensures |st.complete| == |st.contexts| == |lg.og| && st.complete[t.a]
    ensures t.end !in st.contexts[t.a] && InContext(lg, t.a, t.end)
  {
    hide Turned, AreDistinctAddresses, IsStage;
    var run := Tracing(Started(contexts, complete, t.a));
    var st1 := FirstTurn(t, lg, sibs, contexts, complete);
    TurnsOnce(lg, sibs, t.a, run, 0);
    var st2 := SecondTurn(t, lg, sibs, st1);
    TurnsOnce(lg, sibs, t.a, run, 1);
    var st3 := ThirdTurn(t, lg, sibs, st2);
    TurnsOnce(lg, sibs, t.a, run, 2);
    var st4 := FourthTurn(t, lg, sibs, st3);
    TurnsOnce(lg, sibs, t.a, run, 3);
    var st5 := FifthTurn(t, lg, sibs, st4);
    TurnsOnce(lg, sibs, t.a, run, 4);
    var st6 := SixthTurn(t, lg, sibs, st5);
    TurnsOnce(lg, sibs, t.a, run, 5);
    st := LastTurn(t, lg, sibs, st6);
    TurnsOnce(lg, sibs, t.a, run, 6);
    EndIsContext(t, lg);
  }

  lemma TurnsOnce(lg: LaneGraph, sibs: seq<seq<nat>>, zj: nat, run: Run, n: nat)
    ensures Turns(lg, sibs, zj, run, n + 1) == Turned(lg, sibs, zj, Turns(lg, sibs, zj, run, n))
    ensures Turns(lg, sibs, zj, run, 0) == run
  {
  }
}
