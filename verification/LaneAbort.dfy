/** A run of lane tracing that is given up although nothing is wrong with the grammar: the lane graph that it takes,
    and the run turn by turn. */
module LaneAbort {
  import opened Lanes
  import opened LaneStates
  import opened ContextAdding
  import opened LaneRuns
  import opened Snares
  import opened FailedChecks
  import opened LaneLoss

  /** The addresses on the run: lanes lead from `a`, `b` and `c` to most of `b` to `e`, in this order, and to `y`, which
      accepts. */
  datatype Snag = Snag(a: nat, b: nat, c: nat, d: nat, e: nat, y: nat) {

    ghost predicate IsIn(lg: LaneGraph) {
      && lg.Valid() && a < |lg.og| && b < |lg.og| && c < |lg.og| && d < |lg.og| && e < |lg.og| && y < |lg.og|
      && AreDistinctAddresses([a, b, c, d, e, y])
      && lg.og[a] == [y, b, c, d, e] && lg.og[b] == [y, b, c, e] && lg.og[c] == [y, b, c, d, e]
      && lg.first[b] == lg.first[c] == lg.first[d] == lg.first[e] == lg.first[y] == {NULL}
    }

    ghost predicate IsStart(lg: LaneGraph, complete: seq<bool>) {
      && |complete| == |lg.og| && IsIn(lg)
      && complete[y] && !complete[a] && !complete[b] && !complete[c] && !complete[d] && !complete[e]
    }
  }

  lemma SnagIsDistinct(t: Snag, lg: LaneGraph)
    requires t.IsIn(lg)
    ensures t.a != t.b && t.a != t.c && t.a != t.d && t.a != t.e && t.b != t.c && t.b != t.d && t.b != t.e
    ensures t.c != t.d && t.c != t.e && t.d != t.e
    ensures t.y != t.a && t.y != t.b && t.y != t.c && t.y != t.d && t.y != t.e
    ensures t.a < |lg.og| && t.b < |lg.og| && t.c < |lg.og| && t.d < |lg.og| && t.e < |lg.og| && t.y < |lg.og|
  {
    var v := [t.a, t.b, t.c, t.d, t.e, t.y];
    assert v[0] == t.a && v[1] == t.b && v[2] == t.c && v[3] == t.d && v[4] == t.e && v[5] == t.y;
  }

  /** A stage of the run: the lane, the stack, and how many of `a` to `e` are on the lane. */
  ghost predicate IsStage(t: Snag, lg: LaneGraph, st: LaneState, lane: seq<int>, stack: seq<int>, n: nat) {
    && Fits(lg, st) && t.IsIn(lg) && st.lane == lane && st.stack == stack
    && st.complete[t.y] && !st.complete[t.a] && !st.complete[t.b] && !st.complete[t.c]
    && !st.complete[t.d] && !st.complete[t.e]
    && (st.inLane[t.a] <==> 0 < n) && (st.inLane[t.b] <==> 1 < n) && (st.inLane[t.c] <==> 2 < n)
    && (st.inLane[t.d] <==> 3 < n) && (st.inLane[t.e] <==> 4 < n)
    && (forall w: nat :: w < |lg.og| && st.inLane[w] ==> w in lane)
  }

  lemma FailsLater(lg: LaneGraph, st: LaneState, zp: nat, w: nat, nf: nat, ff: int)
    requires Fits(lg, st) && zp < |st.lane| && w < |lg.og| && lg.first[w] == {NULL} && 1 < nf
    requires !st.complete[w] && !st.inLane[w]
    ensures Stepped(lg, st, zp, w, nf, ff) == Progress(Done, PushedOnStack(st, w), nf + 1, ff)
    ensures Fits(lg, PushedOnStack(st, w))
  {
    assert lg.first[w] - {NULL} == {};
  }

  /** The accepting address only adds contexts. */
  lemma EndAdds(
      t: Snag, lg: LaneGraph, st: LaneState, lane: seq<int>, stack: seq<int>, n: nat, zp: nat, rest: seq<nat>)
    returns (st': LaneState)
    requires IsStage(t, lg, st, lane, stack, n) && zp < |lane|
    ensures IsStage(t, lg, st', lane, stack, n)
    ensures Looped(lg, [t.y] + rest, st, zp, 0, -1) == Looped(lg, rest, st', zp, 0, -1)
  {
    hide Stepped, AddedDown;
    LoopedCons(lg, t.y, rest, st, zp, 0, -1);
    CompleteAdds(lg, st, zp, t.y, 0, -1);
    st' := Adding(lg, st, zp, st.contexts[t.y]);
  }

  /** Two originators fail the tests: the first goes on the lane, over a marker, and the second waits. */
  lemma TwoFailing(
      t: Snag, lg: LaneGraph, st: LaneState, lane: seq<int>, stack: seq<int>, n: nat, zp: nat, v: nat, w: nat,
      rest: seq<nat>)
    returns (st': LaneState)
    requires IsStage(t, lg, st, lane, stack, n) && zp + 1 == |lane|
    requires (n == 1 && v == t.b && w == t.c) || (n == 2 && v == t.c && w == t.e)
    ensures IsStage(t, lg, st', lane + [MARKER, v], stack + [MARKER, w], n + 1)
    ensures Looped(lg, [v, w] + rest, st, zp, 0, -1) == Looped(lg, rest, st', zp, 2, v)
  {
    hide Stepped, AreDistinctAddresses;
    SnagIsDistinct(t, lg);
    assert [v, w] + rest == [v] + ([w] + rest);
    LoopedCons(lg, v, [w] + rest, st, zp, 0, -1);
    FailsFirst(lg, st, zp, v);
    var st1 := PushedOnLane(st, v);
    LoopedCons(lg, w, rest, st1, zp, 1, v);
    FailsSecond(lg, st1, zp, w, v);
    st' := PushedOnStack(MarkedUnderTop(st1), w);
    TwoAreOn(t, lg, st, lane, stack, n, v, w, st');
  }

  lemma TwoAreOn(
      t: Snag, lg: LaneGraph, st: LaneState, lane: seq<int>, stack: seq<int>, n: nat, v: nat, w: nat, st': LaneState)
    requires IsStage(t, lg, st, lane, stack, n) && v < |lg.og| && w < |lg.og|
    requires (n == 1 && v == t.b && w == t.c) || (n == 2 && v == t.c && w == t.e)
    requires st' == PushedOnStack(MarkedUnderTop(PushedOnLane(st, v)), w) && Fits(lg, st')
    ensures IsStage(t, lg, st', lane + [MARKER, v], stack + [MARKER, w], n + 1)
  {
    hide Snag.IsIn, Fits;
    SnagIsDistinct(t, lg);
    assert |st.inLane| == |st.complete| == |lg.og| by {
      FitsHas(lg, st);
    }
    assert (lane + [v])[..|lane|] == lane;
    assert st'.lane == lane + [MARKER, v];
    assert st'.stack == stack + [MARKER, w];
    assert st'.lane[|lane| + 1] == v;
    forall x: nat | x < |lg.og| && st'.inLane[x]
      ensures x in st'.lane
    {
      if x != v {
        assert x in lane;
      }
    }
  }

  lemma FitsHas(lg: LaneGraph, st: LaneState)
    requires Fits(lg, st)
    ensures |st.inLane| == |st.complete| == |lg.og|
  {
  }

  /** A later one waits too. */
  lemma OneMoreWaits(
      t: Snag, lg: LaneGraph, st: LaneState, lane: seq<int>, stack: seq<int>, n: nat, zp: nat, nf: nat, ff: int, w: nat,
      rest: seq<nat>)
    returns (st': LaneState)
    requires IsStage(t, lg, st, lane, stack, n) && zp < |lane| && 1 < nf && n <= 2 && (w == t.d || w == t.e)
    ensures IsStage(t, lg, st', lane, stack + [w], n)
    ensures Looped(lg, [w] + rest, st, zp, nf, ff) == Looped(lg, rest, st', zp, nf + 1, ff)
  {
    hide Stepped, AreDistinctAddresses;
    LoopedCons(lg, w, rest, st, zp, nf, ff);
    FailsLater(lg, st, zp, w, nf, ff);
    st' := PushedOnStack(st, w);
  }

  lemma FirstTurn(
      t: Snag, lg: LaneGraph, sibs: seq<seq<nat>>, contexts: seq<set<int>>, complete: seq<bool>)
    returns (st: LaneState)
    requires t.IsStart(lg, complete) && |contexts| == |complete|
    ensures IsStage(t, lg, st, [t.a, MARKER, t.b], [MARKER, t.c, t.d, t.e], 2)
    ensures Turned(lg, sibs, t.a, Tracing(Started(contexts, complete, t.a))) == Tracing(st)
  {
    hide Stepped, Looped, AreDistinctAddresses, IsStage;
    var st0 := StartIsStage(t, lg, contexts, complete);
    StageHas(t, lg, st0, [t.a], [], 1);
    assert [t.y] + [t.b, t.c, t.d, t.e] == lg.og[t.a] && [t.b, t.c] + [t.d, t.e] == [t.b, t.c, t.d, t.e];
    assert [t.d] + [t.e] == [t.d, t.e] && [t.e] + [] == [t.e];
    assert [t.a] + [MARKER, t.b] == [t.a, MARKER, t.b] && [] + [MARKER, t.c] == [MARKER, t.c];
    assert [MARKER, t.c] + [t.d] == [MARKER, t.c, t.d];
    assert [MARKER, t.c, t.d] + [t.e] == [MARKER, t.c, t.d, t.e];
    var st1 := EndAdds(t, lg, st0, [t.a], [], 1, 0, [t.b, t.c, t.d, t.e]);
    var st2 := TwoFailing(t, lg, st1, [t.a], [], 1, 0, t.b, t.c, [t.d, t.e]);
    var st3 := OneMoreWaits(t, lg, st2, [t.a, MARKER, t.b], [MARKER, t.c], 2, 0, 2, t.b, t.d, [t.e]);
    st := OneMoreWaits(t, lg, st3, [t.a, MARKER, t.b], [MARKER, t.c, t.d], 2, 0, 3, t.b, t.e, []);
    LoopIsOver(lg, st, 0, 4, t.b);
  }

  lemma StageHas(t: Snag, lg: LaneGraph, st: LaneState, lane: seq<int>, stack: seq<int>, n: nat)
    requires IsStage(t, lg, st, lane, stack, n)
    ensures Fits(lg, st) && t.IsIn(lg) && st.lane == lane
  {
  }

  lemma {:induction false} LoopIsOver(lg: LaneGraph, st: LaneState, zp: nat, nf: nat, ff: int)
    ensures Looped(lg, [], st, zp, nf, ff) == Progress(Done, st, nf, ff)
  {
  }

  lemma StartIsStage(t: Snag, lg: LaneGraph, contexts: seq<set<int>>, complete: seq<bool>)
    returns (st: LaneState)
    requires t.IsStart(lg, complete) && |contexts| == |complete|
    ensures st == Started(contexts, complete, t.a) && IsStage(t, lg, st, [t.a], [], 1)
  {
    SnagIsDistinct(t, lg);
    st := Started(contexts, complete, t.a);
  }

  /** The address on top has itself as an originator: no marker moves. */
  lemma ClosesHere(
      t: Snag, lg: LaneGraph, st: LaneState, stack: seq<int>, rest: seq<nat>)
    returns (st': LaneState)
    requires IsStage(t, lg, st, [t.a, MARKER, t.b], stack, 2)
    ensures IsStage(t, lg, st', [t.a, MARKER, t.b], stack, 2)
    ensures Looped(lg, [t.b] + rest, st, 2, 0, -1) == Looped(lg, rest, st', 2, 0, -1)
  {
    hide Stepped, AddedDown, AreDistinctAddresses;
    SnagIsDistinct(t, lg);
    LoopedCons(lg, t.b, rest, st, 2, 0, -1);
    OnLaneCloses(lg, st, 2, t.b, 0, -1);
    FirstPlace(st.lane, t.b, 0, 2);
    assert Moved(st.lane, 2, 2, false) == st.lane;
    assert Cycled(st, 2, 2, false) == st;
    st' := Adding(lg, st, 2, st.contexts[t.b]);
  }

  lemma SecondTurn(t: Snag, lg: LaneGraph, sibs: seq<seq<nat>>, st: LaneState)
    returns (st': LaneState)
    requires IsStage(t, lg, st, [t.a, MARKER, t.b], [MARKER, t.c, t.d, t.e], 2)
    ensures IsStage(t, lg, st', [t.a, MARKER, t.b, MARKER, t.c], [MARKER, t.c, t.d, t.e, MARKER, t.e], 3)
    ensures Turned(lg, sibs, t.a, Tracing(st)) == Tracing(st')
  {
    hide Stepped, Looped, AreDistinctAddresses, IsStage;
    var lane: seq<int> := [t.a, MARKER, t.b];
    var stack: seq<int> := [MARKER, t.c, t.d, t.e];
    StageHas(t, lg, st, lane, stack, 2);
    var st1 := EndAdds(t, lg, st, lane, stack, 2, 2, [t.b, t.c, t.e]);
    var st2 := ClosesHere(t, lg, st1, stack, [t.c, t.e]);
    st' := TwoFailing(t, lg, st2, lane, stack, 2, 2, t.c, t.e, []);
    LoopIsOver(lg, st', 2, 2, t.c);
    assert [t.y] + [t.b, t.c, t.e] == lg.og[t.b] && [t.b] + [t.c, t.e] == [t.b, t.c, t.e];
    assert [t.c, t.e] + [] == [t.c, t.e];
    assert lane + [MARKER, t.c] == [t.a, MARKER, t.b, MARKER, t.c];
    assert stack + [MARKER, t.e] == [MARKER, t.c, t.d, t.e, MARKER, t.e];
  }

  /** In the third turn `d` and `e` fail the tests; before that `b` moves the marker between it and `c`. */
  lemma ThirdTurnFails(t: Snag, lg: LaneGraph, st: LaneState)
    requires IsStage(t, lg, st, [t.a, MARKER, t.b, MARKER, t.c], [MARKER, t.c, t.d, t.e, MARKER, t.e], 3)
    ensures TurnFailsCheck(lg, st)
  {
    hide AreDistinctAddresses;
    SnagIsDistinct(t, lg);
    var edges := lg.og[t.c];
    assert edges[0] == t.y && edges[1] == t.b && edges[2] == t.c && edges[3] == t.d && edges[4] == t.e;
    FirstPlace(st.lane, t.b, 0, 2);
    assert st.lane[3] == MARKER;
    assert HasMarker(st.lane, 2, 4);
    assert ClosesAt(lg, st, 4, edges, 1);
    assert FailsAt(lg, st, edges, 3) && FailsAt(lg, st, edges, 4);
    assert FailsOnceBefore(lg, st, edges, 3, 4);
    assert IsSecondToFail(lg, st, edges, 0, 4);
    assert FailsCheckAt(lg, st, 4, edges, 0, false, 4);
  }

  /** So the run from `a` gets to a turn in which the check fails. */
  lemma RunIsAborted(
      t: Snag, lg: LaneGraph, sibs: seq<seq<nat>>, contexts: seq<set<int>>, complete: seq<bool>)
    requires t.IsStart(lg, complete) && |contexts| == |complete|
    ensures t.a < |complete| && !complete[t.a]
    ensures SomeTurnFails(lg, sibs, t.a, Tracing(Started(contexts, complete, t.a)))
  {
    hide Turned, AreDistinctAddresses, IsStage, TurnFailsCheck;
    var run := Tracing(Started(contexts, complete, t.a));
    var st1 := FirstTurn(t, lg, sibs, contexts, complete);
    TurnsOnce(lg, sibs, t.a, run, 0);
    var st2 := SecondTurn(t, lg, sibs, st1);
    TurnsOnce(lg, sibs, t.a, run, 1);
    ThirdTurnFails(t, lg, st2);
    assert FailsAfter(lg, sibs, t.a, run, 2);
  }
}
