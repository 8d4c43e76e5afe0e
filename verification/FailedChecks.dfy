/** When the check in `deal_with_tests_failed` fails: the exact condition on the state in which the loop over the
    originators starts. */
module FailedChecks {
  import opened Containers
  import opened Lanes
  import opened LaneStates
  import opened ContextAdding
  import opened LaneRuns
  import opened Snares

  /** The originator `w` fails the tests: the lane could go on there. */
  ghost predicate FailsTests(lg: LaneGraph, st: LaneState, w: nat)
    requires Fits(lg, st) && w < |lg.og|
  {
    Vanishes(lg.first[w]) && !st.complete[w] && !st.inLane[w]
  }

  /** It is reported as an ambiguity. */
  ghost predicate IsReported(lg: LaneGraph, st: LaneState, w: nat)
    requires Fits(lg, st) && w < |lg.og|
  {
    lg.first[w] - {NULL} != {} && NULL in lg.first[w] && !st.complete[w] && st.inLane[w]
  }

  /** It closes a cycle down to a place on the lane with a marker above. */
  ghost predicate ClosesOverMarker(lg: LaneGraph, st: LaneState, zp: nat, w: nat)
    requires Fits(lg, st) && w < |lg.og|
  {
    lg.first[w] <= {NULL} && !st.complete[w] && st.inLane[w] && HasMarker(st.lane, PlaceOf(st.lane, w, 0), zp)
  }

  ghost predicate AreOriginators(lg: LaneGraph, edges: seq<nat>) {
    && (forall i :: 0 <= i < |edges| ==> edges[i] < |lg.og|)
    && forall i, j :: 0 <= i < j < |edges| ==> edges[i] != edges[j]
  }

  ghost predicate FailsAt(lg: LaneGraph, st: LaneState, edges: seq<nat>, k: int)
    requires Fits(lg, st) && AreOriginators(lg, edges)
  {
    0 <= k < |edges| && FailsTests(lg, st, edges[k])
  }

  ghost predicate IsReportedAt(lg: LaneGraph, st: LaneState, edges: seq<nat>, k: int)
    requires Fits(lg, st) && AreOriginators(lg, edges)
  {
    0 <= k < |edges| && IsReported(lg, st, edges[k])
  }

  ghost predicate ClosesAt(lg: LaneGraph, st: LaneState, zp: nat, edges: seq<nat>, k: int)
    requires Fits(lg, st) && AreOriginators(lg, edges)
  {
    0 <= k < |edges| && ClosesOverMarker(lg, st, zp, edges[k])
  }

  ghost predicate NoneFails(lg: LaneGraph, st: LaneState, edges: seq<nat>, from: int, to: int)
    requires Fits(lg, st) && AreOriginators(lg, edges)
  {
    forall k {:trigger FailsAt(lg, st, edges, k)} :: from <= k < to ==> !FailsAt(lg, st, edges, k)
  }

  ghost predicate FailsOnceBefore(lg: LaneGraph, st: LaneState, edges: seq<nat>, i: int, j: int)
    requires Fits(lg, st) && AreOriginators(lg, edges)
  {
    && 0 <= i < j && FailsAt(lg, st, edges, i)
    && NoneFails(lg, st, edges, 0, i) && NoneFails(lg, st, edges, i + 1, j)
  }

  ghost predicate FailsOnce(lg: LaneGraph, st: LaneState, edges: seq<nat>, j: int)
    requires Fits(lg, st) && AreOriginators(lg, edges)
  {
    exists i :: FailsOnceBefore(lg, st, edges, i, j)
  }

  /** Originator `j` is the second to fail the tests, counting `nf` that have before the first of `edges`. */
  ghost predicate IsSecondToFail(lg: LaneGraph, st: LaneState, edges: seq<nat>, nf: nat, j: int)
    requires Fits(lg, st) && AreOriginators(lg, edges)
  {
    && FailsAt(lg, st, edges, j)
    && if nf == 0 then FailsOnce(lg, st, edges, j) else NoneFails(lg, st, edges, 0, j)
  }

  ghost predicate NoneIsReported(lg: LaneGraph, st: LaneState, edges: seq<nat>, from: int, to: int)
    requires Fits(lg, st) && AreOriginators(lg, edges)
  {
    forall k {:trigger IsReportedAt(lg, st, edges, k)} :: from <= k < to ==> !IsReportedAt(lg, st, edges, k)
  }

  ghost predicate ClosesBefore(lg: LaneGraph, st: LaneState, zp: nat, edges: seq<nat>, j: int)
    requires Fits(lg, st) && AreOriginators(lg, edges)
  {
    exists a :: a < j && ClosesAt(lg, st, zp, edges, a)
  }

  /** The check fails at originator `j`, the second to fail the tests: before it no ambiguity is reported, and a
      marker has moved up already, or an originator before it makes one. */
  ghost predicate FailsCheckAt(
      lg: LaneGraph, st: LaneState, zp: nat, edges: seq<nat>, nf: nat, moved: bool, j: int)
    requires Fits(lg, st) && AreOriginators(lg, edges)
  {
    && IsSecondToFail(lg, st, edges, nf, j) && NoneIsReported(lg, st, edges, 0, j)
    && (moved || ClosesBefore(lg, st, zp, edges, j))
  }

  ghost predicate FailsCheckFrom(lg: LaneGraph, st: LaneState, zp: nat, edges: seq<nat>, nf: nat, moved: bool)
    requires Fits(lg, st) && AreOriginators(lg, edges)
  {
    exists j :: FailsCheckAt(lg, st, zp, edges, nf, moved, j)
  }

  /** In the turn from `st` on, the check fails. */
  ghost predicate FailsCheck(lg: LaneGraph, st: LaneState, edges: seq<nat>)
    requires Fits(lg, st) && AreOriginators(lg, edges) && st.lane != []
  {
    FailsCheckFrom(lg, st, |st.lane| - 1, edges, 0, false)
  }

  /** The same for the address on top of the lane. */
  ghost predicate TurnFailsCheck(lg: LaneGraph, st: LaneState) {
    && Fits(lg, st) && st.lane != [] && 0 <= st.lane[|st.lane| - 1]
    && AreOriginators(lg, lg.og[st.lane[|st.lane| - 1]]) && FailsCheck(lg, st, lg.og[st.lane[|st.lane| - 1]])
  }

  /** The run that starts with `run` gets to such a turn after `n` turns. */
  ghost predicate FailsAfter(lg: LaneGraph, sibs: seq<seq<nat>>, zj: nat, run: Run, n: nat) {
    Turns(lg, sibs, zj, run, n).Tracing? && TurnFailsCheck(lg, Turns(lg, sibs, zj, run, n).st)
  }

  ghost predicate SomeTurnFails(lg: LaneGraph, sibs: seq<seq<nat>>, zj: nat, run: Run) {
    exists n: nat :: FailsAfter(lg, sibs, zj, run, n)
  }

  // ----- one originator less -----

  lemma RestAreOriginators(lg: LaneGraph, edges: seq<nat>)
    requires AreOriginators(lg, edges) && edges != []
    ensures edges[0] < |lg.og| && AreOriginators(lg, edges[1..]) && edges[0] !in edges[1..]
  {
  }

  ghost predicate AreRest(lg: LaneGraph, st: LaneState, edges: seq<nat>, rest: seq<nat>) {
    Fits(lg, st) && AreOriginators(lg, edges) && AreOriginators(lg, rest) && edges != [] && rest == edges[1..]
  }

  lemma OneOn(lg: LaneGraph, st: LaneState, zp: nat, edges: seq<nat>, rest: seq<nat>, k: int)
    requires AreRest(lg, st, edges, rest) && 0 <= k
    ensures FailsAt(lg, st, rest, k) <==> FailsAt(lg, st, edges, k + 1)
    ensures IsReportedAt(lg, st, rest, k) <==> IsReportedAt(lg, st, edges, k + 1)
    ensures ClosesAt(lg, st, zp, rest, k) <==> ClosesAt(lg, st, zp, edges, k + 1)
  {
    hide FailsTests, IsReported, ClosesOverMarker;
    assert k < |rest| ==> rest[k] == edges[k + 1];
  }

  lemma NoneOneOn(lg: LaneGraph, st: LaneState, edges: seq<nat>, rest: seq<nat>, a: int, b: int)
    requires AreRest(lg, st, edges, rest) && 0 <= a
    ensures NoneFails(lg, st, rest, a, b) <==> NoneFails(lg, st, edges, a + 1, b + 1)
    ensures NoneIsReported(lg, st, rest, a, b) <==> NoneIsReported(lg, st, edges, a + 1, b + 1)
  {
    hide FailsAt, IsReportedAt, AreRest;
    AreRestHas(lg, st, edges, rest);
    if NoneFails(lg, st, rest, a, b) {
      forall k | a + 1 <= k < b + 1
        ensures !FailsAt(lg, st, edges, k)
      {
        OneOn(lg, st, 0, edges, rest, k - 1);
      }
    }
    if NoneIsReported(lg, st, rest, a, b) {
      forall k | a + 1 <= k < b + 1
        ensures !IsReportedAt(lg, st, edges, k)
      {
        OneOn(lg, st, 0, edges, rest, k - 1);
      }
    }
    forall k | a <= k < b
      ensures FailsAt(lg, st, rest, k) ==> FailsAt(lg, st, edges, k + 1)
      ensures IsReportedAt(lg, st, rest, k) ==> IsReportedAt(lg, st, edges, k + 1)
    {
      OneOn(lg, st, 0, edges, rest, k);
    }
  }

  lemma AreRestHas(lg: LaneGraph, st: LaneState, edges: seq<nat>, rest: seq<nat>)
    requires AreRest(lg, st, edges, rest)
    ensures Fits(lg, st) && AreOriginators(lg, edges) && AreOriginators(lg, rest)
  {
  }

  /** A range that starts with the first of all. */
  lemma NoneFromFirst(lg: LaneGraph, st: LaneState, edges: seq<nat>, j: int)
    requires Fits(lg, st) && AreOriginators(lg, edges) && 0 < j
    ensures NoneFails(lg, st, edges, 0, j) <==> !FailsAt(lg, st, edges, 0) && NoneFails(lg, st, edges, 1, j)
    ensures NoneIsReported(lg, st, edges, 0, j) <==>
      !IsReportedAt(lg, st, edges, 0) && NoneIsReported(lg, st, edges, 1, j)
  {
    hide FailsAt, IsReportedAt;
  }

  /** Whether a later originator is the second to fail, seen from here and from the next. */
  lemma SecondOneOn(
      lg: LaneGraph, st: LaneState, edges: seq<nat>, rest: seq<nat>, nf: nat, nf': nat, j: int)
    requires AreRest(lg, st, edges, rest) && 0 < j
    requires nf' == nf + (if FailsAt(lg, st, edges, 0) then 1 else 0) <= 1
    ensures IsSecondToFail(lg, st, edges, nf, j) <==> IsSecondToFail(lg, st, rest, nf', j - 1)
  {
    hide FailsAt, IsReportedAt, AreRest, NoneFails, NoneIsReported;
    AreRestHas(lg, st, edges, rest);
    OneOn(lg, st, 0, edges, rest, j - 1);
    NoneFromFirst(lg, st, edges, j);
    NoneOneOn(lg, st, edges, rest, 0, j - 1);
    if nf == 0 {
      if nf' == 0 {
        OnceOneOn(lg, st, edges, rest, j - 1, j);
      } else {
        OnceFromFirst(lg, st, edges, j);
      }
    }
  }

  lemma OnceFromFirst(lg: LaneGraph, st: LaneState, edges: seq<nat>, j: int)
    requires Fits(lg, st) && AreOriginators(lg, edges) && 0 < j && FailsAt(lg, st, edges, 0)
    ensures FailsOnce(lg, st, edges, j) <==> NoneFails(lg, st, edges, 1, j)
  {
    hide FailsAt;
    if NoneFails(lg, st, edges, 1, j) {
      assert FailsOnceBefore(lg, st, edges, 0, j);
    }
    if i :| FailsOnceBefore(lg, st, edges, i, j) {
      assert i == 0;
    }
  }

  lemma OnceOneOn(lg: LaneGraph, st: LaneState, edges: seq<nat>, rest: seq<nat>, k: int, j: int)
    requires AreRest(lg, st, edges, rest) && !FailsAt(lg, st, edges, 0) && j == k + 1
    ensures FailsOnce(lg, st, edges, j) <==> FailsOnce(lg, st, rest, k)
  {
    hide FailsAt, AreRest, NoneFails, NoneIsReported;
    AreRestHas(lg, st, edges, rest);
    if i :| FailsOnceBefore(lg, st, edges, i, j) {
      OnceAtOneOn(lg, st, edges, rest, i, j);
    }
    if i :| FailsOnceBefore(lg, st, rest, i, k) {
      OnceAtOneOn(lg, st, edges, rest, i + 1, j);
    }
  }

  lemma OnceAtOneOn(lg: LaneGraph, st: LaneState, edges: seq<nat>, rest: seq<nat>, i: int, j: int)
    requires AreRest(lg, st, edges, rest) && 0 < i && !FailsAt(lg, st, edges, 0)
    ensures FailsOnceBefore(lg, st, edges, i, j) <==> FailsOnceBefore(lg, st, rest, i - 1, j - 1)
  {
    hide FailsAt, AreRest, NoneFails, NoneIsReported;
    AreRestHas(lg, st, edges, rest);
    OneOn(lg, st, 0, edges, rest, i - 1);
    NoneFromFirst(lg, st, edges, i);
    NoneOneOn(lg, st, edges, rest, 0, i - 1);
    NoneOneOn(lg, st, edges, rest, i, j - 1);
  }

  lemma ClosesOneOn(
      lg: LaneGraph, st: LaneState, zp: nat, edges: seq<nat>, rest: seq<nat>, j: int)
    requires AreRest(lg, st, edges, rest) && 0 < j
    ensures ClosesBefore(lg, st, zp, edges, j) <==>
      ClosesAt(lg, st, zp, edges, 0) || ClosesBefore(lg, st, zp, rest, j - 1)
  {
    hide ClosesOverMarker;
    if a :| a < j && ClosesAt(lg, st, zp, edges, a) {
      if 0 < a {
        OneOn(lg, st, zp, edges, rest, a - 1);
      }
    }
    if a :| a < j - 1 && ClosesAt(lg, st, zp, rest, a) {
      OneOn(lg, st, zp, edges, rest, a);
    }
  }

  lemma FailsCheckOneOn(
      lg: LaneGraph, st: LaneState, zp: nat, edges: seq<nat>, rest: seq<nat>, nf: nat, nf': nat, moved: bool, j: int)
    requires AreRest(lg, st, edges, rest) && 0 < j && !IsReportedAt(lg, st, edges, 0)
    requires nf' == nf + (if FailsAt(lg, st, edges, 0) then 1 else 0) <= 1
    ensures FailsCheckAt(lg, st, zp, edges, nf, moved, j) <==>
      FailsCheckAt(lg, st, zp, rest, nf', moved || ClosesAt(lg, st, zp, edges, 0), j - 1)
  {
    hide FailsAt, IsReportedAt, ClosesAt, AreRest, NoneFails, NoneIsReported, IsSecondToFail, ClosesBefore;
    AreRestHas(lg, st, edges, rest);
    SecondOneOn(lg, st, edges, rest, nf, nf', j);
    NoneFromFirst(lg, st, edges, j);
    NoneOneOn(lg, st, edges, rest, 0, j - 1);
    ClosesOneOn(lg, st, zp, edges, rest, j);
  }

  /** The condition from one originator on is that from the next on. */
  lemma FailsCheckFromNext(
      lg: LaneGraph, st: LaneState, zp: nat, edges: seq<nat>, rest: seq<nat>, nf: nat, nf': nat, moved: bool,
      moved': bool)
    requires AreRest(lg, st, edges, rest) && !IsReported(lg, st, edges[0])
    requires nf' == nf + (if FailsTests(lg, st, edges[0]) then 1 else 0) <= 1
    requires moved' == (moved || ClosesOverMarker(lg, st, zp, edges[0]))
    ensures FailsCheckFrom(lg, st, zp, edges, nf, moved) <==> FailsCheckFrom(lg, st, zp, rest, nf', moved')
  {
    hide FailsTests, IsReported, ClosesOverMarker, FailsCheckAt;
    if j :| FailsCheckAt(lg, st, zp, edges, nf, moved, j) {
      SecondIsNotFirst(lg, st, zp, edges, nf, moved, j);
      FailsCheckOneOn(lg, st, zp, edges, rest, nf, nf', moved, j);
    }
    if j :| FailsCheckAt(lg, st, zp, rest, nf', moved', j) {
      IsIndex(lg, st, zp, rest, nf', moved', j);
      FailsCheckOneOn(lg, st, zp, edges, rest, nf, nf', moved, j + 1);
    }
  }

  lemma IsIndex(
      lg: LaneGraph, st: LaneState, zp: nat, edges: seq<nat>, nf: nat, moved: bool, j: int)
    requires Fits(lg, st) && AreOriginators(lg, edges) && FailsCheckAt(lg, st, zp, edges, nf, moved, j)
    ensures 0 <= j < |edges|
  {
  }

  lemma SecondIsNotFirst(
      lg: LaneGraph, st: LaneState, zp: nat, edges: seq<nat>, nf: nat, moved: bool, j: int)
    requires Fits(lg, st) && AreOriginators(lg, edges) && FailsCheckAt(lg, st, zp, edges, nf, moved, j)
    requires edges != [] && (FailsTests(lg, st, edges[0]) ==> nf == 0)
    ensures 0 < j
  {
    hide FailsTests;
  }

  /** At the second failure it is a matter of whether a marker has moved. */
  lemma FailsCheckNow(lg: LaneGraph, st: LaneState, zp: nat, edges: seq<nat>, moved: bool)
    requires Fits(lg, st) && AreOriginators(lg, edges) && edges != [] && FailsTests(lg, st, edges[0])
    ensures FailsCheckFrom(lg, st, zp, edges, 1, moved) <==> moved
  {
    hide FailsTests, IsReported, ClosesOverMarker;
    assert FailsAt(lg, st, edges, 0);
    if moved {
      assert FailsCheckAt(lg, st, zp, edges, 1, moved, 0);
    }
    if j :| FailsCheckAt(lg, st, zp, edges, 1, moved, j) {
      assert j == 0;
    }
  }

  /** A report comes first. */
  lemma ReportComesFirst(lg: LaneGraph, st: LaneState, zp: nat, edges: seq<nat>, nf: nat, moved: bool)
    requires Fits(lg, st) && AreOriginators(lg, edges) && edges != [] && IsReported(lg, st, edges[0])
    ensures !FailsCheckFrom(lg, st, zp, edges, nf, moved)
  {
    forall j
      ensures !FailsCheckAt(lg, st, zp, edges, nf, moved, j)
    {
      assert IsReportedAt(lg, st, edges, 0) && !FailsAt(lg, st, edges, 0);
    }
  }

  // ----- the loop -----

  /** The state in the loop that started in `st`, after at most one failure: the flags but for the first that
      failed, the addresses of the lane, and, if a marker has moved, a marker where the check looks. */
  ghost predicate IsDuring(
      lg: LaneGraph, st: LaneState, st': LaneState, zp: nat, nf: nat, ff: int, moved: bool)
  {
    && Fits(lg, st) && Fits(lg, st') && zp + 1 == |st.lane| && 0 <= st.lane[zp] && nf <= 1
    && zp + 1 + nf <= |st'.lane| && st'.complete == st.complete
    && (forall i :: 0 <= i <= zp ==> st'.lane[i] == st.lane[i] || (st.lane[i] < 0 && st'.lane[i] < 0))
    && (forall w: nat :: w < |lg.og| && st.inLane[w] ==> w in st.lane)
    && (nf == 0 ==> st'.inLane == st.inLane)
    && (nf == 1 ==> 0 <= ff < |lg.og| && st'.inLane == st.inLane[ff := true] && st'.lane[|st'.lane| - 1] == ff)
    && (!moved ==> st'.lane == if nf == 0 then st.lane else st.lane + [ff])
    && (moved ==> zp + 1 + nf < |st'.lane| && st'.lane[|st'.lane| - 1 - nf] == MARKER)
  }

  /** What is done with an originator depends on the state in which the loop started. */
  lemma {:induction false} TestsAreTheSame(
      lg: LaneGraph, st: LaneState, st': LaneState, zp: nat, nf: nat, ff: int, moved: bool, w: nat)
    requires IsDuring(lg, st, st', zp, nf, ff, moved) && w < |lg.og| && (nf == 1 ==> w != ff)
    ensures st'.complete[w] == st.complete[w] && st'.inLane[w] == st.inLane[w]
    ensures st.inLane[w] ==> PlaceOf(st'.lane, w, 0) == PlaceOf(st.lane, w, 0) <= zp
  {
    if st.inLane[w] {
      var i :| 0 <= i < |st.lane| && st.lane[i] == w;
      SamePlace(st.lane, st'.lane, zp, w, 0, i);
    }
  }

  lemma {:induction false} SamePlace(lane: seq<int>, lane': seq<int>, zp: nat, w: nat, from: nat, i: nat)
    requires from <= i <= zp < |lane| && zp < |lane'| && lane[i] == w
    requires forall j :: 0 <= j <= zp ==> lane'[j] == lane[j] || (lane[j] < 0 && lane'[j] < 0)
    ensures PlaceOf(lane', w, from) == PlaceOf(lane, w, from) <= zp
    ensures lane[PlaceOf(lane, w, from)] == w
    decreases i - from
  {
    if lane[from] != w {
      SamePlace(lane, lane', zp, w, from + 1, i);
    }
  }

  lemma AddingKeepsDuring(
      lg: LaneGraph, st: LaneState, st': LaneState, zp: nat, nf: nat, ff: int, moved: bool, s: set<int>)
    requires IsDuring(lg, st, st', zp, nf, ff, moved)
    ensures IsDuring(lg, st, Adding(lg, st', zp, s), zp, nf, ff, moved)
  {
  }

  lemma FirstFailureKeepsDuring(
      lg: LaneGraph, st: LaneState, st': LaneState, zp: nat, ff: int, moved: bool, w: nat)
    requires IsDuring(lg, st, st', zp, 0, ff, moved) && w < |lg.og|
    ensures IsDuring(lg, st, PushedOnLane(st', w), zp, 1, w, moved)
  {
  }

  /** Closing a cycle moves a marker just if there is one in between, in the lane as it was. */
  lemma {:induction false} ClosingKeepsDuring(
      lg: LaneGraph, st: LaneState, st': LaneState, zp: nat, nf: nat, ff: int, moved: bool, w: nat, loc: nat)
    requires IsDuring(lg, st, st', zp, nf, ff, moved) && w < |lg.og| && loc == PlaceOf(st'.lane, w, 0) <= zp
    requires loc == PlaceOf(st.lane, w, 0)
    ensures IsDuring(lg, st, Closing(lg, st', zp, w, nf), zp, nf, ff, moved || HasMarker(st.lane, loc, zp))
  {
    hide Moved, HasMarker, PlaceOf;
    var lane' := Moved(st'.lane, loc, zp, 0 < nf);
    AddressesOfMoved(st'.lane, loc, zp, 0 < nf);
    WhenMarkersMove(st'.lane, loc, zp, 0 < nf);
    var st1 := Cycled(st', loc, zp, 0 < nf);
    assert Fits(lg, st1);
    MovesMarker(lg, st, st', zp, nf, ff, moved, loc);
    MovedKeepsDuring(lg, st, st', zp, nf, ff, moved, loc, st1);
    AddingKeepsDuring(lg, st, st1, zp, nf, ff, moved || HasMarker(st.lane, loc, zp), st'.contexts[w]);
  }

  lemma MovesMarker(
      lg: LaneGraph, st: LaneState, st': LaneState, zp: nat, nf: nat, ff: int, moved: bool, loc: nat)
    requires IsDuring(lg, st, st', zp, nf, ff, moved) && loc <= zp
    ensures !moved ==> (HasMarker(st'.lane, loc, zp) <==> HasMarker(st.lane, loc, zp))
  {
    if !moved {
      assert forall i :: 0 <= i <= zp ==> st'.lane[i] == st.lane[i];
      if m :| loc < m < zp && 0 <= m < |st.lane| && st.lane[m] == MARKER {
        assert st'.lane[m] == MARKER;
      }
      if m :| loc < m < zp && 0 <= m < |st'.lane| && st'.lane[m] == MARKER {
        assert st.lane[m] == MARKER;
      }
    }
  }

  lemma MovedKeepsDuring(
      lg: LaneGraph, st: LaneState, st': LaneState, zp: nat, nf: nat, ff: int, moved: bool, loc: nat, st1: LaneState)
    requires IsDuring(lg, st, st', zp, nf, ff, moved) && loc <= zp
    requires st1 == Cycled(st', loc, zp, 0 < nf) && Fits(lg, st1)
    requires !moved ==> (HasMarker(st'.lane, loc, zp) <==> HasMarker(st.lane, loc, zp))
    ensures IsDuring(lg, st, st1, zp, nf, ff, moved || HasMarker(st.lane, loc, zp))
  {
    hide Moved, HasMarker;
    AddressesOfMoved(st'.lane, loc, zp, 0 < nf);
    WhenMarkersMove(st'.lane, loc, zp, 0 < nf);
  }

  /** One originator: what the tests on the state at the start of the loop say of it happens. */
  lemma StepGoesAsTested(
      lg: LaneGraph, st: LaneState, st': LaneState, zp: nat, nf: nat, ff: int, moved: bool, w: nat)
    requires IsDuring(lg, st, st', zp, nf, ff, moved) && w < |lg.og| && (nf == 1 ==> w != ff)
    ensures var p := Stepped(lg, st', zp, w, nf, ff);
      if IsReported(lg, st, w) then p.outcome.Ambiguous?
      else if !FailsTests(lg, st, w) then
        && p.outcome.Done? && p.nf == nf && p.ff == ff
        && IsDuring(lg, st, p.st, zp, nf, ff, moved || ClosesOverMarker(lg, st, zp, w))
      else if nf == 0 then p.outcome.Done? && p.nf == 1 && p.ff == w && IsDuring(lg, st, p.st, zp, 1, w, moved)
      else if moved then p.outcome.CheckFailed?
      else p.outcome.Done? && p.nf == 2
  {
    hide IsDuring, AddedDown;
    DuringFits(lg, st, st', zp, nf, ff, moved);
    TestsAreTheSame(lg, st, st', zp, nf, ff, moved, w);
    var firsts := lg.first[w] - {NULL};
    if FailsTests(lg, st, w) {
      var st1 := if firsts != {} then Adding(lg, st', zp, firsts) else st';
      AddingKeepsDuring(lg, st, st', zp, nf, ff, moved, firsts);
      assert firsts != {} ==> NULL in lg.first[w];
      FailingGoesAsTested(lg, st, st1, zp, nf, ff, moved, w);
    } else if firsts != {} || st'.complete[w] {
      AddingKeepsDuring(lg, st, st', zp, nf, ff, moved, firsts);
      AddingKeepsDuring(lg, st, st', zp, nf, ff, moved, firsts + st'.contexts[w]);
      AddingKeepsDuring(lg, st, st', zp, nf, ff, moved, st'.contexts[w]);
    } else {
      ClosingKeepsDuring(lg, st, st', zp, nf, ff, moved, w, PlaceOf(st.lane, w, 0));
    }
  }

  lemma DuringFits(
      lg: LaneGraph, st: LaneState, st': LaneState, zp: nat, nf: nat, ff: int, moved: bool)
    requires IsDuring(lg, st, st', zp, nf, ff, moved)
    ensures Fits(lg, st) && Fits(lg, st') && zp < |st'.lane| && nf <= 1
  {
  }

  lemma FailingGoesAsTested(
      lg: LaneGraph, st: LaneState, st': LaneState, zp: nat, nf: nat, ff: int, moved: bool, w: nat)
    requires IsDuring(lg, st, st', zp, nf, ff, moved) && w < |lg.og|
    ensures var p := Failing(lg, st', zp, w, nf, ff);
      if nf == 0 then p.outcome.Done? && p.nf == 1 && p.ff == w && IsDuring(lg, st, p.st, zp, 1, w, moved)
      else if moved then p.outcome.CheckFailed?
      else p.outcome.Done? && p.nf == 2
  {
    if nf == 0 {
      FirstFailureKeepsDuring(lg, st, st', zp, ff, moved, w);
    } else {
      assert !moved ==> st'.lane[|st'.lane| - 2] == st.lane[zp] == st'.lane[zp];
      assert moved ==> st'.lane[|st'.lane| - 2] == MARKER;
    }
  }

  /** After the second failure the check is not made any more. */
  lemma {:induction false} NoCheckLater(lg: LaneGraph, edges: seq<nat>, st: LaneState, zp: nat, nf: nat, ff: int)
    requires 2 <= nf
    ensures !Looped(lg, edges, st, zp, nf, ff).outcome.CheckFailed?
    decreases |edges|
  {
    if edges != [] && Fits(lg, st) && zp < |st.lane| && edges[0] < |lg.og| {
      var p := Stepped(lg, st, zp, edges[0], nf, ff);
      NoCheckAtStep(lg, st, zp, edges[0], nf, ff);
      if p.outcome.Done? {
        NoCheckLater(lg, edges[1..], p.st, zp, p.nf, p.ff);
      }
    }
  }

  lemma NoCheckAtStep(lg: LaneGraph, st: LaneState, zp: nat, w: nat, nf: nat, ff: int)
    requires Fits(lg, st) && zp < |st.lane| && w < |lg.og| && 2 <= nf
    ensures !Stepped(lg, st, zp, w, nf, ff).outcome.CheckFailed? && 2 <= Stepped(lg, st, zp, w, nf, ff).nf
  {
    hide AddedDown, Closing;
  }

  lemma {:induction false} LoopFailsCheck(
      lg: LaneGraph, st: LaneState, st': LaneState, zp: nat, edges: seq<nat>, nf: nat, ff: int, moved: bool)
    requires IsDuring(lg, st, st', zp, nf, ff, moved) && AreOriginators(lg, edges) && (nf == 1 ==> ff !in edges)
    ensures Looped(lg, edges, st', zp, nf, ff).outcome.CheckFailed? <==> FailsCheckFrom(lg, st, zp, edges, nf, moved)
    decreases |edges|
  {
    hide IsDuring, Stepped, FailsTests, IsReported, ClosesOverMarker, FailsCheckFrom, AreOriginators;
    DuringFits(lg, st, st', zp, nf, ff, moved);
    if edges == [] {
      NothingFails(lg, st, zp, nf, moved);
    } else {
      var w, rest := edges[0], edges[1..];
      RestAreOriginators(lg, edges);
      var p := Stepped(lg, st', zp, w, nf, ff);
      StepGoesAsTested(lg, st, st', zp, nf, ff, moved, w);
      if IsReported(lg, st, w) {
        ReportComesFirst(lg, st, zp, edges, nf, moved);
      } else if FailsTests(lg, st, w) && nf == 1 {
        FailsCheckNow(lg, st, zp, edges, moved);
        if !moved {
          NoCheckLater(lg, rest, p.st, zp, p.nf, p.ff);
        }
      } else {
        var moved' := moved || ClosesOverMarker(lg, st, zp, w);
        FailingDoesNotClose(lg, st, zp, w);
        LoopFailsCheck(lg, st, p.st, zp, rest, p.nf, p.ff, moved');
        assert AreRest(lg, st, edges, rest);
        FailsCheckFromNext(lg, st, zp, edges, rest, nf, p.nf, moved, moved');
      }
    }
  }

  lemma NothingFails(lg: LaneGraph, st: LaneState, zp: nat, nf: nat, moved: bool)
    requires Fits(lg, st)
    ensures AreOriginators(lg, []) && !FailsCheckFrom(lg, st, zp, [], nf, moved)
  {
  }

  lemma FailingDoesNotClose(lg: LaneGraph, st: LaneState, zp: nat, w: nat)
    requires Fits(lg, st) && w < |lg.og|
    ensures FailsTests(lg, st, w) ==> !ClosesOverMarker(lg, st, zp, w)
  {
  }

  /** The loop ends with a failed check exactly if, before an ambiguity is reported, two originators fail the tests,
      and one before the second of them closes a cycle over a marker. */
  lemma {:induction false} WhenCheckFails(lg: LaneGraph, st: LaneState, zp: nat, edges: seq<nat>)
    requires Fits(lg, st) && zp + 1 == |st.lane| && 0 <= st.lane[zp] && AreOriginators(lg, edges)
    requires forall w: nat :: w < |lg.og| && st.inLane[w] ==> w in st.lane
    ensures Looped(lg, edges, st, zp, 0, -1).outcome.CheckFailed? <==> FailsCheck(lg, st, edges)
  {
    hide Looped, FailsCheckFrom, AreOriginators;
    assert IsDuring(lg, st, st, zp, 0, -1, false);
    LoopFailsCheck(lg, st, st, zp, edges, 0, -1, false);
  }
}
