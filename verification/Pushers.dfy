/** Who put the waiting addresses on the stack, and what it takes for an address to be on the lane twice and
    lose contexts by it. */
module Pushers {
  import opened Lanes
  import opened LaneStates

  /** Two different originators of `p` may continue its lane; the first leads to the second, and that one
      back to `p`. */
  ghost predicate IsTwist(lg: LaneGraph, p: nat, f: nat, w: nat)
    requires lg.Valid()
  {
    f != w && f != p && w != p && Continues(lg, p, f) && Continues(lg, p, w) && Leads(lg, f, w) && Leads(lg, w, p)
  }

  ghost predicate HasOther(lg: LaneGraph, q: nat, u: nat)
    requires lg.Valid()
  {
    exists g: nat :: g != u && Continues(lg, q, g)
  }

  /** `w` leads to `q`, of which `u`, not an accepting config, is one of several continuing originators. */
  ghost predicate IsBranch(lg: LaneGraph, w: nat, q: nat, u: nat)
    requires lg.Valid()
  {
    && Leads(lg, w, q) && Continues(lg, q, u) && u != q && HasOther(lg, q, u)
    && u < |lg.og| && lg.base[u] == {}
  }

  /** A twist with another branch. */
  ghost predicate HasTangle(lg: LaneGraph)
    requires lg.Valid()
  {
    exists p: nat, f: nat, w: nat, q: nat, u: nat ::
      IsTwist(lg, p, f, w) && IsBranch(lg, w, q, u) && u != p && u != f && u != w
  }

  lemma TanglesAreCycles(lg: LaneGraph)
    requires lg.Valid() && HasTangle(lg)
    ensures !IsAcyclic(lg)
  {
    var p: nat, f: nat, w: nat, q: nat, u: nat :|
      IsTwist(lg, p, f, w) && IsBranch(lg, w, q, u) && u != p && u != f && u != w;
    StepLeads(lg, p, w);
    LeadsJoin(lg, p, w, p);
  }

  /** The first address above position `p` of the lane is at `n`. */
  ghost predicate IsNext(lane: seq<int>, p: int, n: int) {
    0 <= p < n < |lane| && 0 <= lane[n] && forall j :: p < j < n ==> lane[j] < 0
  }

  /** The address at lane position `p` has put the one at place `s` on the stack: that is one of its
      originators and not the only one, as is the first address above `p`; those further up that it waits
      above lead back to `p`; and it is not on the lane up to `p`. */
  ghost predicate IsPusher(lg: LaneGraph, st: LaneState, p: int, s: int)
    requires WellFormed(lg, st)
  {
    && st.WaitsAbove(s, p) && Continues(lg, st.lane[p], st.stack[s]) && HasOther(lg, st.lane[p], st.stack[s])
    && (forall i :: 0 <= i <= p ==> st.lane[i] != st.stack[s])
    && (forall i :: p < i && st.WaitsAbove(s, i) ==> Leads(lg, st.lane[i], st.lane[p]))
    && (forall n :: IsNext(st.lane, p, n) ==>
          Continues(lg, st.lane[p], st.lane[n]) && st.lane[n] != st.stack[s] && st.lane[n] != st.lane[p])
  }

  /** `ps` tells for each waiting address the position of its pusher: lower on the stack, no higher on
      the lane. All are below position `limit`. */
  ghost predicate ArePushers(lg: LaneGraph, st: LaneState, ps: seq<int>, limit: int)
    requires WellFormed(lg, st)
  {
    && |ps| == |st.stack|
    && (forall s :: st.IsWaiting(s) ==> IsPusher(lg, st, ps[s], s) && ps[s] < limit)
    && (forall s, r :: st.IsWaiting(s) && st.IsWaiting(r) && s < r ==>
          && ps[s] <= ps[r]
          && (ps[s] == ps[r] ==> st.stack[s] != st.stack[r]))
  }

  ghost predicate HavePushers(lg: LaneGraph, st: LaneState, limit: int)
    requires WellFormed(lg, st)
  {
    exists ps :: ArePushers(lg, st, ps, limit)
  }

  lemma {:induction false} SamePusher(lg: LaneGraph, st: LaneState, st': LaneState, p: int, s: int)
    requires WellFormed(lg, st) && WellFormed(lg, st') && st'.lane == st.lane && IsPusher(lg, st, p, s)
    requires s < |st'.stack| && st'.stack[s] == st.stack[s] && Marks(st'.stack, s) == Marks(st.stack, s)
    ensures IsPusher(lg, st', p, s)
  {
    assert forall i :: st'.WaitsAbove(s, i) <==> st.WaitsAbove(s, i);
  }

  lemma SamePushers(lg: LaneGraph, st: LaneState, st': LaneState, ps: seq<int>, limit: int)
    requires WellFormed(lg, st) && WellFormed(lg, st') && st'.lane == st.lane && st'.stack == st.stack
    requires ArePushers(lg, st, ps, limit)
    ensures ArePushers(lg, st', ps, limit)
  {
    forall s | st'.IsWaiting(s)
      ensures IsPusher(lg, st', ps[s], s)
    {
      assert st.IsWaiting(s);
      SamePusher(lg, st, st', ps[s], s);
    }
  }

  /** A new top of the lane must be the originator of a pusher that has no other address above it. */
  lemma PushKeepsPusher(lg: LaneGraph, st: LaneState, w: nat, p: int, s: int)
    requires WellFormed(lg, st) && w < |lg.og| && WellFormed(lg, PushedOnLane(st, w)) && IsPusher(lg, st, p, s)
    requires (forall j :: p < j < |st.lane| ==> st.lane[j] < 0) ==>
      Continues(lg, st.lane[p], w) && w != st.stack[s] && w != st.lane[p]
    ensures IsPusher(lg, PushedOnLane(st, w), p, s)
  {
    var st' := PushedOnLane(st, w);
    MarksOfPush(st.lane, w);
    forall i
      ensures st'.WaitsAbove(s, i) <==> st.WaitsAbove(s, i)
    {
      if st'.WaitsAbove(s, i) {
        NothingWaitsAboveTop(lg, st', i, s);
      }
    }
    forall n | IsNext(st'.lane, p, n)
      ensures Continues(lg, st'.lane[p], st'.lane[n]) && st'.lane[n] != st'.stack[s] && st'.lane[n] != st'.lane[p]
    {
      if n < |st.lane| {
        assert forall j :: p < j < n ==> st'.lane[j] == st.lane[j];
        assert IsNext(st.lane, p, n);
      } else {
        assert forall j :: p < j < |st.lane| ==> st'.lane[j] == st.lane[j];
      }
    }
  }

  lemma PushKeepsPushers(lg: LaneGraph, st: LaneState, w: nat, ps: seq<int>, limit: int)
    requires WellFormed(lg, st) && w < |lg.og| && WellFormed(lg, PushedOnLane(st, w)) && ArePushers(lg, st, ps, limit)
    requires forall s :: st.IsWaiting(s) && (forall j :: ps[s] < j < |st.lane| ==> st.lane[j] < 0) ==>
      Continues(lg, st.lane[ps[s]], w) && w != st.stack[s] && w != st.lane[ps[s]]
    ensures ArePushers(lg, PushedOnLane(st, w), ps, limit)
  {
    forall s | st.IsWaiting(s)
      ensures IsPusher(lg, PushedOnLane(st, w), ps[s], s)
    {
      PushKeepsPusher(lg, st, w, ps[s], s);
    }
  }

  lemma MarkKeepsPusher(lg: LaneGraph, st: LaneState, p: int, s: int)
    requires WellFormed(lg, st) && 1 < |st.lane| && st.IsEntry(|st.lane| - 1) && WellFormed(lg, MarkedUnderTop(st))
    requires IsPusher(lg, st, p, s) && p < |st.lane| - 1
    ensures IsPusher(lg, MarkedUnderTop(st), p, s)
  {
    var st' := MarkedUnderTop(st);
    var top := |st.lane| - 1;
    forall i
      ensures st'.WaitsAbove(s, i) <==> i < top && st.WaitsAbove(s, i)
    {
      MarkKeepsWaiting(lg, st, i, s);
    }
    assert forall i :: 0 <= i < top ==> st'.lane[i] == st.lane[i];
    forall n | IsNext(st'.lane, p, n)
      ensures Continues(lg, st'.lane[p], st'.lane[n]) && st'.lane[n] != st'.stack[s] && st'.lane[n] != st'.lane[p]
    {
      assert IsNext(st.lane, p, if n < top then n else top);
    }
  }

  lemma MarkKeepsPushers(lg: LaneGraph, st: LaneState, ps: seq<int>, limit: int)
    requires WellFormed(lg, st) && 1 < |st.lane| && st.IsEntry(|st.lane| - 1) && WellFormed(lg, MarkedUnderTop(st))
    requires ArePushers(lg, st, ps, limit) && limit < |st.lane|
    ensures ArePushers(lg, MarkedUnderTop(st), ps + [-1], limit)
  {
    var st' := MarkedUnderTop(st);
    forall s | st'.IsWaiting(s)
      ensures s < |st.stack| && IsPusher(lg, st', ps[s], s) && st.IsWaiting(s)
    {
      assert s < |st.stack|;
      MarkKeepsPusher(lg, st, ps[s], s);
    }
  }

  /** The address at `zp` puts `w` on the stack; its first originator to fail is on top of the lane. */
  lemma {:induction false} WaitHasPusher(lg: LaneGraph, st: LaneState, w: nat, zp: nat)
    requires WellFormed(lg, st) && w < |lg.og| && WellFormed(lg, PushedOnStack(st, w))
    requires st.IsEntry(zp) && Continues(lg, st.lane[zp], w) && w !in st.lane
    requires Marks(st.lane, zp) < Marks(st.lane, |st.lane|)
    requires zp < |st.lane| - 1 && st.IsEntry(|st.lane| - 1) && Continues(lg, st.lane[zp], st.lane[|st.lane| - 1])
    requires forall j :: zp < j < |st.lane| - 1 ==> st.lane[j] == MARKER
    requires st.lane[|st.lane| - 1] != w && st.lane[|st.lane| - 1] != st.lane[zp]
    ensures IsPusher(lg, PushedOnStack(st, w), zp, |st.stack|)
  {
    var st' := PushedOnStack(st, w);
    var top := |st.stack|;
    MarksOfPush(st.stack, w);
    var g: nat := st.lane[|st.lane| - 1];
    assert g != w && Continues(lg, st.lane[zp], g);
    assert HasOther(lg, st'.lane[zp], st'.stack[top]);
    assert st'.WaitsAbove(top, zp);
    forall i | zp < i && st'.WaitsAbove(top, i)
      ensures false
    {
      NothingWaitsAboveTop(lg, st', i, top);
    }
  }

  lemma WaitKeepsPushers(lg: LaneGraph, st: LaneState, w: nat, ps: seq<int>, zp: nat)
    requires WellFormed(lg, st) && w < |lg.og| && WellFormed(lg, PushedOnStack(st, w))
    requires ArePushers(lg, st, ps, zp + 1) && IsPusher(lg, PushedOnStack(st, w), zp, |st.stack|)
    requires forall s :: st.IsWaiting(s) && ps[s] == zp ==> st.stack[s] != w
    ensures ArePushers(lg, PushedOnStack(st, w), ps + [zp], zp + 1)
  {
    hide IsPusher;
    var st' := PushedOnStack(st, w);
    forall s | st'.IsWaiting(s) && s < |st.stack|
      ensures st.IsWaiting(s) && IsPusher(lg, st', ps[s], s)
    {
      assert st.IsWaiting(s);
      MarksOfPush(st.stack, w);
      SamePusher(lg, st, st', ps[s], s);
    }
  }

  /** Moving the markers makes more addresses wait above those on the cycle, and those lead back. */
  lemma CycleLeadsBackToPusher(
      lg: LaneGraph, zj: nat, st: LaneState, loc: nat, zp: nat, keepTop: bool, exact: bool, p: int, s: int, i: int)
    requires Core(lg, zj, st, exact) && IsCycle(lg, st, loc, zp, keepTop)
    requires IsPusher(lg, st, p, s) && p < i && i <= zp && st.IsEntry(i)
    requires st.WaitsAbove(s, if i <= loc then i else loc)
    ensures Leads(lg, st.lane[i], st.lane[p])
  {
    if loc < i {
      CycleReachesBack(lg, zj, st, loc, zp, keepTop, i, exact);
      if loc != p {
        LeadsJoin(lg, st.lane[i], st.lane[loc], st.lane[p]);
      }
    }
  }

  lemma CycleKeepsNext(
      lg: LaneGraph, st: LaneState, loc: nat, zp: nat, keepTop: bool, p: int, n: int)
    requires WellFormed(lg, st) && IsCycle(lg, st, loc, zp, keepTop) && 0 <= p <= zp
    requires WellFormed(lg, Cycled(st, loc, zp, keepTop)) && IsNext(Cycled(st, loc, zp, keepTop).lane, p, n)
    ensures IsNext(st.lane, p, OldPosition(st, zp, n))
    ensures Cycled(st, loc, zp, keepTop).lane[n] == st.lane[OldPosition(st, zp, n)]
  {
    var st' := Cycled(st, loc, zp, keepTop);
    CycledHasTheSameEntries(lg, st, loc, zp, keepTop);
    assert st'.IsEntry(n);
    forall j | p < j < OldPosition(st, zp, n)
      ensures st.lane[j] < 0
    {
      assert j <= zp && st.IsEntry(j) ==> st'.lane[j] == st.lane[j];
    }
  }

  lemma CycleKeepsPusher(
      lg: LaneGraph, zj: nat, st: LaneState, loc: nat, zp: nat, keepTop: bool, exact: bool, p: int, s: int)
    requires Core(lg, zj, st, exact) && IsCycle(lg, st, loc, zp, keepTop)
    requires WellFormed(lg, Cycled(st, loc, zp, keepTop)) && IsPusher(lg, st, p, s) && p <= zp
    ensures IsPusher(lg, Cycled(st, loc, zp, keepTop), p, s)
  {
    hide Marks, Moved;
    var st' := Cycled(st, loc, zp, keepTop);
    CycledHasTheSameEntries(lg, st, loc, zp, keepTop);
    AddressesOfMoved(st.lane, loc, zp, keepTop);
    CycleKeepsLower(lg, st, loc, zp, keepTop, p, p);
    assert st'.WaitsAbove(s, p);
    forall i | p < i && st'.WaitsAbove(s, i)
      ensures Leads(lg, st'.lane[i], st'.lane[p])
    {
      WhatWaitsAfterCycle(lg, st, loc, zp, keepTop, i, s);
      CycleLeadsBackToPusher(lg, zj, st, loc, zp, keepTop, exact, p, s, i);
    }
    forall n | IsNext(st'.lane, p, n)
      ensures Continues(lg, st'.lane[p], st'.lane[n]) && st'.lane[n] != st'.stack[s] && st'.lane[n] != st'.lane[p]
    {
      CycleKeepsNext(lg, st, loc, zp, keepTop, p, n);
    }
  }

  lemma CycleKeepsPushers(
      lg: LaneGraph, zj: nat, st: LaneState, loc: nat, zp: nat, keepTop: bool, exact: bool, ps: seq<int>, limit: int)
    requires Core(lg, zj, st, exact) && IsCycle(lg, st, loc, zp, keepTop)
    requires WellFormed(lg, Cycled(st, loc, zp, keepTop)) && ArePushers(lg, st, ps, limit) && limit <= zp + 1
    ensures ArePushers(lg, Cycled(st, loc, zp, keepTop), ps, limit)
  {
    forall s | st.IsWaiting(s)
      ensures IsPusher(lg, Cycled(st, loc, zp, keepTop), ps[s], s)
    {
      CycleKeepsPusher(lg, zj, st, loc, zp, keepTop, exact, ps[s], s);
    }
  }

  lemma PopKeepsPusher(lg: LaneGraph, st: LaneState, p: int, s: int)
    requires WellFormed(lg, st) && MayPop(lg, st) && WellFormed(lg, Popped(st))
    requires IsPusher(lg, st, p, s) && s < |Popped(st).stack|
    ensures IsPusher(lg, Popped(st), p, s) && p < |Popped(st).lane|
  {
    var st' := Popped(st);
    PopKeepsWaiting(lg, st);
    NothingWaitsAboveTop(lg, st, p, s);
    assert st'.WaitsAbove(s, p);
    forall n | IsNext(st'.lane, p, n)
      ensures IsNext(st.lane, p, n)
    {
      assert forall j :: p < j < n ==> st.lane[j] == st'.lane[j];
    }
  }

  lemma PopKeepsPushers(lg: LaneGraph, st: LaneState, ps: seq<int>)
    requires WellFormed(lg, st) && MayPop(lg, st) && WellFormed(lg, Popped(st))
    requires ArePushers(lg, st, ps, |st.lane|)
    ensures ArePushers(lg, Popped(st), ps[..|Popped(st).stack|], |Popped(st).lane|)
  {
    var st' := Popped(st);
    forall s | st'.IsWaiting(s)
      ensures st.IsWaiting(s) && IsPusher(lg, st', ps[s], s) && ps[s] < |st'.lane|
    {
      assert st.IsWaiting(s);
      PopKeepsPusher(lg, st, ps[s], s);
    }
  }

  lemma UnstackKeepsPushers(lg: LaneGraph, st: LaneState, ps: seq<int>, limit: int)
    requires WellFormed(lg, st) && st.stack != [] && WellFormed(lg, Unstacked(st)) && ArePushers(lg, st, ps, limit)
    ensures ArePushers(lg, Unstacked(st), ps[..|st.stack| - 1], limit)
  {
    hide IsPusher;
    var st' := Unstacked(st);
    forall s | st'.IsWaiting(s)
      ensures st.IsWaiting(s) && IsPusher(lg, st', ps[s], s)
    {
      assert st.IsWaiting(s);
      MarksOfPop(st.stack);
      SamePusher(lg, st, st', ps[s], s);
    }
  }

  /** The top of the stack goes on the lane: the pushers with no other address above them are its own. */
  lemma ResumeKeepsPushers(lg: LaneGraph, st: LaneState, ps: seq<int>, w: nat)
    requires WellFormed(lg, st) && ArePushers(lg, st, ps, |st.lane|)
    requires st.stack != [] && w == st.stack[|st.stack| - 1] && w < |lg.og|
    requires WellFormed(lg, PushedOnLane(st, w)) && WellFormed(lg, Unstacked(PushedOnLane(st, w)))
    ensures HavePushers(lg, Unstacked(PushedOnLane(st, w)), |st.lane|)
  {
    hide IsNext, Continues;
    var top := |st.stack| - 1;
    assert st.IsWaiting(top) && IsPusher(lg, st, ps[top], top);
    var st0 := Unstacked(st);
    MarksOfPop(st.stack);
    UnstackKeepsPushers(lg, st, ps, |st.lane|);
    var ps0 := ps[..top];
    forall s | st0.IsWaiting(s) && forall j :: ps0[s] < j < |st.lane| ==> st.lane[j] < 0
      ensures Continues(lg, st.lane[ps0[s]], w) && w != st0.stack[s] && w != st.lane[ps0[s]]
    {
      assert st.IsWaiting(s) && ps[s] <= ps[top];
      assert st.IsEntry(ps[top]);
      assert ps[s] == ps[top];
    }
    MarksOfPush(st.lane, w);
    PushKeepsPushers(lg, st0, w, ps0, |st.lane|);
    assert PushedOnLane(st0, w) == Unstacked(PushedOnLane(st, w));
  }

  /** The first address above a position. */
  lemma NextExists(lane: seq<int>, p: int, i: int) returns (n: int)
    requires 0 <= p < i < |lane| && 0 <= lane[i]
    ensures IsNext(lane, p, n) && n <= i
    decreases i
  {
    if j :| p < j < i && 0 <= lane[j] {
      n := NextExists(lane, p, j);
    } else {
      n := i;
    }
  }

  lemma PusherOf(lg: LaneGraph, st: LaneState, s: int, limit: int) returns (p: int)
    requires WellFormed(lg, st) && HavePushers(lg, st, limit) && st.IsWaiting(s)
    ensures IsPusher(lg, st, p, s) && p < limit
  {
    var ps :| ArePushers(lg, st, ps, limit);
    p := ps[s];
  }

  // ----- addresses that are on the lane twice -----

  ghost predicate AreTwice(st: LaneState, i: int, k: int) {
    0 <= i < k && st.IsEntry(i) && st.IsEntry(k) && st.lane[i] == st.lane[k]
  }

  ghost predicate IsSecond(st: LaneState, k: int) {
    exists i :: AreTwice(st, i, k)
  }

  ghost predicate HasNoDoubles(st: LaneState) {
    forall i, k :: !AreTwice(st, i, k)
  }

  /** Above an address that is there a second time there are only such addresses. */
  ghost predicate IsFlat(st: LaneState) {
    forall k, m {:trigger IsSecond(st, k), st.IsEntry(m)} ::
      k < m && IsSecond(st, k) && st.IsEntry(m) ==> IsSecond(st, m)
  }

  ghost predicate IsDealtWith(st: LaneState, z: int) {
    0 <= z < |st.complete| && (st.complete[z] || z in st.lane)
  }

  /** What waits above an address that is on the lane twice is complete or on the lane itself. */
  ghost predicate IsCalm(st: LaneState) {
    forall i, k, s {:trigger AreTwice(st, i, k), st.WaitsAbove(s, i)} ::
      AreTwice(st, i, k) && st.WaitsAbove(s, i) ==> IsDealtWith(st, st.stack[s])
  }

  ghost predicate IsTwistTo(lg: LaneGraph, st: LaneState, p: int, n: int, i: int)
    requires lg.Valid()
  {
    && 0 <= p < n < i && st.IsEntry(p) && st.IsEntry(n) && st.IsEntry(i)
    && IsTwist(lg, st.lane[p], st.lane[n], st.lane[i])
  }

  ghost predicate IsTwisted(lg: LaneGraph, st: LaneState, i: int)
    requires lg.Valid()
  {
    exists p, n :: IsTwistTo(lg, st, p, n, i)
  }

  /** Below an address that is on the lane twice there is a twist that leads to it. */
  ghost predicate DoublesAreTwisted(lg: LaneGraph, st: LaneState)
    requires lg.Valid()
  {
    forall i, k :: AreTwice(st, i, k) ==> IsTwisted(lg, st, i)
  }

  /** Without a tangle, nothing is lost by addresses that are on the lane twice. */
  ghost predicate IsTame(lg: LaneGraph, st: LaneState)
    requires lg.Valid()
  {
    !HasTangle(lg) && IsFlat(st) && IsCalm(st) && DoublesAreTwisted(lg, st)
  }

  lemma NoDoublesIsTame(lg: LaneGraph, st: LaneState)
    requires lg.Valid() && HasNoDoubles(st) && !HasTangle(lg)
    ensures IsTame(lg, st)
  {
  }

  /** Below position `k` nothing is there twice if `k` is not. */
  lemma FlatBelow(st: LaneState, k: int, i: int, j: int)
    requires IsFlat(st) && st.IsEntry(k) && !IsSecond(st, k) && j <= k
    ensures !AreTwice(st, i, j)
  {
    if AreTwice(st, i, j) {
      assert IsSecond(st, j);
    }
  }

  lemma SameLaneKeepsTame(lg: LaneGraph, st: LaneState, st': LaneState)
    requires lg.Valid() && IsTame(lg, st) && st'.lane == st.lane && |st'.complete| == |st.complete|
    requires forall z :: 0 <= z < |st.complete| && st.complete[z] ==> st'.complete[z]
    requires forall s, i :: st'.WaitsAbove(s, i) ==> st.WaitsAbove(s, i) && st'.stack[s] == st.stack[s]
    ensures IsTame(lg, st')
    ensures HasNoDoubles(st) ==> HasNoDoubles(st')
  {
    SameEntriesKeepShape(lg, st, st');
    forall i, k, s | AreTwice(st', i, k) && st'.WaitsAbove(s, i)
      ensures IsDealtWith(st', st'.stack[s])
    {
      assert AreTwice(st, i, k) && st.WaitsAbove(s, i);
      assert IsDealtWith(st, st.stack[s]);
    }
  }

  /** The shape of the lane is a matter of its entries. */
  lemma SameEntriesKeepShape(lg: LaneGraph, st: LaneState, st': LaneState)
    requires lg.Valid() && IsFlat(st) && DoublesAreTwisted(lg, st)
    requires forall i :: st'.IsEntry(i) ==> st.IsEntry(i) && st'.lane[i] == st.lane[i]
    requires forall i, k :: i < k && st'.IsEntry(k) && st.IsEntry(i) ==> st'.IsEntry(i)
    ensures IsFlat(st') && DoublesAreTwisted(lg, st')
    ensures HasNoDoubles(st) ==> HasNoDoubles(st')
  {
    assert forall i, k :: AreTwice(st', i, k) ==> AreTwice(st, i, k);
    forall k, m | k < m && IsSecond(st', k) && st'.IsEntry(m)
      ensures IsSecond(st', m)
    {
      var i :| AreTwice(st', i, k);
      assert IsSecond(st, k) && st.IsEntry(m);
      assert IsSecond(st, m);
      var j :| AreTwice(st, j, m);
      assert AreTwice(st', j, m);
    }
    forall i, k | AreTwice(st', i, k)
      ensures IsTwisted(lg, st', i)
    {
      assert IsTwisted(lg, st, i);
      var p, n :| IsTwistTo(lg, st, p, n, i);
      assert IsTwistTo(lg, st', p, n, i);
    }
  }

  lemma AddKeepsTame(lg: LaneGraph, st: LaneState, st': LaneState)
    requires lg.Valid() && IsTame(lg, st) && st' == st.(contexts := st'.contexts)
    ensures IsTame(lg, st')
    ensures HasNoDoubles(st) ==> HasNoDoubles(st')
  {
    assert forall s, i :: st'.WaitsAbove(s, i) ==> st.WaitsAbove(s, i);
    SameLaneKeepsTame(lg, st, st');
  }

  lemma UnstackKeepsTame(lg: LaneGraph, st: LaneState)
    requires lg.Valid() && IsTame(lg, st) && st.stack != []
    ensures IsTame(lg, Unstacked(st))
  {
    MarksOfPop(st.stack);
    assert forall s, i :: Unstacked(st).WaitsAbove(s, i) ==> st.WaitsAbove(s, i);
    SameLaneKeepsTame(lg, st, Unstacked(st));
  }

  lemma WaitKeepsNoDoubles(st: LaneState, w: nat)
    ensures HasNoDoubles(st) ==> HasNoDoubles(PushedOnStack(st, w))
  {
    assert forall i, k :: AreTwice(PushedOnStack(st, w), i, k) ==> AreTwice(st, i, k);
  }

  lemma PopKeepsTame(lg: LaneGraph, st: LaneState)
    requires WellFormed(lg, st) && MayPop(lg, st) && IsTame(lg, st)
    ensures IsTame(lg, Popped(st))
  {
    var st' := Popped(st);
    PopKeepsWaiting(lg, st);
    SameEntriesKeepShape(lg, st, st');
    forall i, k, s | AreTwice(st', i, k) && st'.WaitsAbove(s, i)
      ensures IsDealtWith(st', st'.stack[s])
    {
      assert AreTwice(st, i, k) && st.WaitsAbove(s, i);
      PopKeepsDealtWith(lg, st, st.stack[s]);
    }
  }

  lemma PopKeepsDealtWith(lg: LaneGraph, st: LaneState, z: int)
    requires WellFormed(lg, st) && MayPop(lg, st) && IsDealtWith(st, z)
    ensures IsDealtWith(Popped(st), z)
  {
    if !st.complete[z] {
      var j :| 0 <= j < |st.lane| && st.lane[j] == z;
      assert j < |st.lane| - 1;
      assert Popped(st).lane[j] == z;
    }
  }

  /** A waiting address that has not been dealt with, above a twist, makes a tangle. */
  lemma WaitingMakesTangle(lg: LaneGraph, st: LaneState, i: int, q: int, s: int)
    requires WellFormed(lg, st) && IsTwisted(lg, st, i) && IsPusher(lg, st, q, s)
    requires Leads(lg, st.lane[i], st.lane[q]) && st.stack[s] !in st.lane && lg.base[st.stack[s]] == {}
    ensures HasTangle(lg)
  {
    var p, n :| IsTwistTo(lg, st, p, n, i);
    assert IsTwist(lg, st.lane[p], st.lane[n], st.lane[i]);
    assert IsBranch(lg, st.lane[i], st.lane[q], st.stack[s]);
  }

  /** An address on the lane that leads to one above or below it which has a waiting address, leads to the pusher. */
  lemma TwistLeadsToPusher(lg: LaneGraph, st: LaneState, i: int, q: int, s: int, exact: bool)
    requires WellFormed(lg, st) && LaneIsNested(lg, st, exact) && IsTwisted(lg, st, i) && IsPusher(lg, st, q, s)
    requires q < i ==> st.WaitsAbove(s, i)
    ensures Leads(lg, st.lane[i], st.lane[q])
  {
    if q == i {
      var p, n :| IsTwistTo(lg, st, p, n, i);
      StepLeads(lg, st.lane[p], st.lane[i]);
      LeadsJoin(lg, st.lane[i], st.lane[p], st.lane[i]);
    }
  }

  lemma CycleLeadsToPusher(
      lg: LaneGraph, zj: nat, st: LaneState, loc: nat, zp: nat, keepTop: bool, exact: bool, i: int, q: int, s: int)
    requires Core(lg, zj, st, exact) && IsCycle(lg, st, loc, zp, keepTop) && loc < i <= zp && st.IsEntry(i)
    requires IsPusher(lg, st, q, s) && q <= zp && st.WaitsAbove(s, loc)
    ensures Leads(lg, st.lane[i], st.lane[q])
  {
    CycleReachesBack(lg, zj, st, loc, zp, keepTop, i, exact);
    if q != loc {
      LeadsJoin(lg, st.lane[i], st.lane[loc], st.lane[q]);
    }
  }

  /** A cycle makes more addresses wait above those on it; without a tangle, these have been dealt with. */
  lemma CycleKeepsTame(
      lg: LaneGraph, zj: nat, st: LaneState, loc: nat, zp: nat, keepTop: bool, exact: bool, limit: int)
    requires Core(lg, zj, st, exact) && IsCycle(lg, st, loc, zp, keepTop) && IsTame(lg, st)
    requires keepTop ==> HasNoDoubles(st)
    requires HavePushers(lg, st, limit) && limit <= zp + 1
    ensures IsTame(lg, Cycled(st, loc, zp, keepTop))
    ensures HasNoDoubles(st) ==> HasNoDoubles(Cycled(st, loc, zp, keepTop))
  {
    hide HavePushers, Leads, Continues, IsDealtWith, DoublesAreTwisted, Moved, Reaches;
    var st' := Cycled(st, loc, zp, keepTop);
    CycledHasTheSameEntries(lg, st, loc, zp, keepTop);
    if HasNoDoubles(st) {
      forall i, k
        ensures !AreTwice(st', i, k)
      {
        assert !AreTwice(st, OldPosition(st, zp, i), OldPosition(st, zp, k));
      }
      NoDoublesIsTame(lg, st');
    } else {
      SameEntriesKeepShape(lg, st, st');
      forall i, k, s | AreTwice(st', i, k) && st'.WaitsAbove(s, i)
        ensures IsDealtWith(st', st'.stack[s])
      {
        CycleKeepsCalm(lg, zj, st, loc, zp, exact, limit, i, k, s);
      }
    }
  }

  lemma CycleKeepsCalm(
      lg: LaneGraph, zj: nat, st: LaneState, loc: nat, zp: nat, exact: bool, limit: int, i: int, k: int, s: int)
    requires Core(lg, zj, st, exact) && IsCycle(lg, st, loc, zp, false) && IsTame(lg, st)
    requires HavePushers(lg, st, limit) && limit <= zp + 1
    requires AreTwice(Cycled(st, loc, zp, false), i, k) && Cycled(st, loc, zp, false).WaitsAbove(s, i)
    ensures IsDealtWith(Cycled(st, loc, zp, false), st.stack[s])
  {
    CycledHasTheSameEntries(lg, st, loc, zp, false);
    WhatWaitsAfterCycle(lg, st, loc, zp, false, i, s);
    assert AreTwice(st, i, k);
    if !IsDealtWith(st, st.stack[s]) {
      assert loc < i;
      var q := PusherOf(lg, st, s, limit);
      CycleLeadsToPusher(lg, zj, st, loc, zp, false, exact, i, q, s);
      assert IsTwisted(lg, st, i);
      WaitingMakesTangle(lg, st, i, q, s);
    }
  }

  /** The address that goes on the lane is there already, at `i`: its pusher makes the twist. */
  lemma DoubleIsTwisted(lg: LaneGraph, st: LaneState, i: int, s: int, limit: int, exact: bool)
    requires WellFormed(lg, st) && LaneIsNested(lg, st, exact) && HavePushers(lg, st, limit)
    requires st.WaitsAbove(s, i) && st.lane[i] == st.stack[s]
    ensures IsTwisted(lg, st, i)
  {
    var p := PusherOf(lg, st, s, limit);
    var n := NextExists(st.lane, p, i);
    assert st.IsEntry(n) && n < i;
    assert Leads(lg, st.lane[n], st.lane[i]) && Leads(lg, st.lane[i], st.lane[p]);
    assert IsTwistTo(lg, st, p, n, i);
  }

  lemma TwistStays(lg: LaneGraph, st: LaneState, st': LaneState, i: int)
    requires lg.Valid() && IsTwisted(lg, st, i) && st.lane <= st'.lane
    ensures IsTwisted(lg, st', i)
  {
    var p, n :| IsTwistTo(lg, st, p, n, i);
    assert IsTwistTo(lg, st', p, n, i);
  }

  /** What waits above a twisted address has been dealt with, without a tangle. */
  lemma TwistedIsCalm(
      lg: LaneGraph, zj: nat, st: LaneState, i: int, s: int, limit: int, exact: bool)
    requires Core(lg, zj, st, exact) && HavePushers(lg, st, limit) && !HasTangle(lg)
    requires IsTwisted(lg, st, i) && st.WaitsAbove(s, i)
    ensures IsDealtWith(st, st.stack[s])
  {
    if !IsDealtWith(st, st.stack[s]) {
      var q := PusherOf(lg, st, s, limit);
      TwistLeadsToPusher(lg, st, i, q, s, exact);
      WaitingMakesTangle(lg, st, i, q, s);
    }
  }

  lemma ResumeKeepsTame(lg: LaneGraph, zj: nat, st: LaneState, w: nat, top: nat, exact: bool)
    requires Core(lg, zj, st, exact) && HavePushers(lg, st, |st.lane|) && IsTame(lg, st)
    requires st.lane[|st.lane| - 1] == MARKER && top + 1 == |st.stack| && w == st.stack[top] && w < |lg.og|
    requires !st.complete[w]
    ensures IsTame(lg, Unstacked(PushedOnLane(st, w)))
  {
    hide ArePushers, DoublesAreTwisted;
    var st' := Unstacked(PushedOnLane(st, w));
    TopWaitsAboveAll(lg, st);
    if w in st.lane {
      ResumeKeepsShape(lg, zj, st, w, top, exact);
      forall i, k, s | AreTwice(st', i, k) && st'.WaitsAbove(s, i)
        ensures IsDealtWith(st', st'.stack[s])
      {
        ResumeKeepsWaiting(lg, st, w, top, i, s);
        ResumedIsTwisted(lg, zj, st, w, top, exact, i, k);
        TwistedIsCalm(lg, zj, st, i, s, |st.lane|, exact);
      }
    } else {
      forall i, k
        ensures !AreTwice(st', i, k)
      {
        assert AreTwice(st, i, k) ==> st.WaitsAbove(top, i) && IsDealtWith(st, st.stack[top]);
      }
      NoDoublesIsTame(lg, st');
    }
  }

  lemma ResumeKeepsWaiting(lg: LaneGraph, st: LaneState, w: nat, top: nat, i: int, s: int)
    requires WellFormed(lg, st) && st.lane != [] && top + 1 == |st.stack| && w == st.stack[top] && w < |lg.og|
    requires Unstacked(PushedOnLane(st, w)).WaitsAbove(s, i)
    ensures i < |st.lane| && st.WaitsAbove(s, i) && Unstacked(PushedOnLane(st, w)).stack[s] == st.stack[s]
  {
    MarksOfPush(st.lane, w);
    MarksOfPop(st.stack);
    MarksGrow(st.stack, s, top);
  }

  /** Both places of an address that is twice on the new lane have a twist below the lower one. */
  lemma ResumedIsTwisted(
      lg: LaneGraph, zj: nat, st: LaneState, w: nat, top: nat, exact: bool, i: int, k: int)
    requires Core(lg, zj, st, exact) && HavePushers(lg, st, |st.lane|) && IsTame(lg, st)
    requires st.lane[|st.lane| - 1] == MARKER && top + 1 == |st.stack| && w == st.stack[top] && w < |lg.og|
    requires AreTwice(Unstacked(PushedOnLane(st, w)), i, k)
    ensures i < |st.lane| && IsTwisted(lg, st, i)
  {
    TopWaitsAboveAll(lg, st);
    if k < |st.lane| {
      assert AreTwice(st, i, k);
    } else {
      assert st.IsEntry(i);
      DoubleIsTwisted(lg, st, i, top, |st.lane|, exact);
    }
  }

  lemma ResumeKeepsShape(lg: LaneGraph, zj: nat, st: LaneState, w: nat, top: nat, exact: bool)
    requires Core(lg, zj, st, exact) && HavePushers(lg, st, |st.lane|) && IsTame(lg, st) && w in st.lane
    requires st.lane[|st.lane| - 1] == MARKER && top + 1 == |st.stack| && w == st.stack[top] && w < |lg.og|
    ensures IsFlat(Unstacked(PushedOnLane(st, w))) && DoublesAreTwisted(lg, Unstacked(PushedOnLane(st, w)))
  {
    var st' := Unstacked(PushedOnLane(st, w));
    ResumeKeepsFlat(lg, st, w);
    forall i, k | AreTwice(st', i, k)
      ensures IsTwisted(lg, st', i)
    {
      ResumedIsTwisted(lg, zj, st, w, top, exact, i, k);
      TwistStays(lg, st, st', i);
    }
  }

  lemma ResumeKeepsFlat(lg: LaneGraph, st: LaneState, w: nat)
    requires IsFlat(st) && w in st.lane && w < |st.inLane| && st.stack != []
    ensures IsFlat(Unstacked(PushedOnLane(st, w)))
  {
    var st' := Unstacked(PushedOnLane(st, w));
    forall k, m | k < m && IsSecond(st', k) && st'.IsEntry(m)
      ensures IsSecond(st', m)
    {
      var i :| AreTwice(st', i, k);
      if m < |st.lane| {
        assert AreTwice(st, i, k) && IsSecond(st, k) && st.IsEntry(m);
        var j :| AreTwice(st, j, m);
        assert AreTwice(st', j, m);
      } else {
        var j :| 0 <= j < |st.lane| && st.lane[j] == w;
        assert AreTwice(st', j, m);
      }
    }
  }

  /** A fresh address goes on a lane without doubles. */
  lemma PushKeepsNoDoubles(st: LaneState, w: nat)
    requires HasNoDoubles(st) && w < |st.inLane| && w !in st.lane
    ensures HasNoDoubles(PushedOnLane(st, w))
  {
    var st' := PushedOnLane(st, w);
    forall i, k
      ensures !AreTwice(st', i, k)
    {
      assert !AreTwice(st, i, k);
    }
  }

  lemma MarkKeepsNoDoubles(st: LaneState)
    requires HasNoDoubles(st) && st.lane != [] && st.IsEntry(|st.lane| - 1)
    ensures HasNoDoubles(MarkedUnderTop(st))
  {
    var st', top := MarkedUnderTop(st), |st.lane| - 1;
    forall i, k
      ensures !AreTwice(st', i, k)
    {
      assert !AreTwice(st, if i < top then i else top, if k < top then k else top);
    }
  }
}
