/** Adding contexts down the lane (`context_adding_routine`): when they reach every address they should. */
module ContextAdding {
  import opened Lanes
  import opened LaneStates
  import opened Pushers

  /** The contexts after `left` has gone down the lane from position `r`: each address takes what it has
      not got, and only that goes on to the addresses below. */
  ghost function AddedDown(contexts: seq<set<int>>, lane: seq<int>, r: int, left: set<int>): (added: seq<set<int>>)
    requires -1 <= r < |lane| && forall i :: 0 <= i <= r ==> lane[i] < |contexts|
    ensures |added| == |contexts|
    decreases r
  {
    if r < 0 || left == {} then contexts
    else if lane[r] < 0 then AddedDown(contexts, lane, r - 1, left)
    else
      var rest := left - contexts[lane[r]];
      AddedDown(contexts[lane[r] := contexts[lane[r]] + rest], lane, r - 1, rest)
  }

  /** Nothing keeps `s` from the addresses below `zp`: none up to there is on the lane twice, or `s` is there
      already. */
  ghost predicate IsUnblocked(st: LaneState, zp: nat, s: set<int>) {
    || (forall i, k :: k <= zp ==> !AreTwice(st, i, k))
    || (st.IsEntry(zp) && st.lane[zp] < |st.contexts| && s <= st.contexts[st.lane[zp]])
  }

  /** Adds the generated contexts down the lane, at each address only those it has not got; once none
      are left, those below are taken to have them all. */
  method ContextAddingRoutine(
      ghost lg: LaneGraph, st: LaneState, zetaPointer: nat, generated: set<int>, ghost exact: bool)
    returns (contexts: seq<set<int>>)
    requires WellFormed(lg, st) && zetaPointer < |st.lane| && LaneIsNested(lg, st, exact)
    requires exact ==> IsUnblocked(st, zetaPointer, generated)
    ensures contexts == AddedDown(st.contexts, st.lane, zetaPointer, generated)
    ensures Added(st, zetaPointer + 1, generated, contexts, exact)
  {
    contexts := st.contexts;
    var left := generated;
    var r := zetaPointer as int;
    while 0 <= r && left != {}
      invariant -1 <= r <= zetaPointer && |contexts| == |st.contexts|
      invariant AddedDown(contexts, st.lane, r, left) == AddedDown(st.contexts, st.lane, zetaPointer, generated)
      decreases r
    {
      var v := st.lane[r];
      if 0 <= v {
        left := left - contexts[v];
        contexts := contexts[v := contexts[v] + left];
      }
      r := r - 1;
    }
    AddedDownAddsOnLane(st.contexts, st.lane, zetaPointer, generated);
    if exact {
      NestedLaneLosesNothing(lg, st, zetaPointer, generated);
    }
  }

  /** Position `j` keeps `t` from the addresses below: its address had `t` or is also higher up. */
  ghost predicate Blocks(contexts: seq<set<int>>, lane: seq<int>, r: int, j: int, t: int)
    requires 0 <= j <= r < |lane| && 0 <= lane[j] < |contexts|
  {
    t in contexts[lane[j]] || lane[j] in lane[j + 1..r + 1]
  }

  /** Below every position that blocks `t`, the addresses have `t` or are also higher up. */
  ghost predicate NothingIsLost(contexts: seq<set<int>>, lane: seq<int>, r: int, t: int)
    requires -1 <= r < |lane| && forall i :: 0 <= i <= r ==> lane[i] < |contexts|
  {
    forall i, j :: 0 <= i < j <= r && 0 <= lane[i] && 0 <= lane[j] && Blocks(contexts, lane, r, j, t) ==>
      t in contexts[lane[i]] || lane[i] in lane[j..r + 1]
  }

  ghost predicate AllHave(contexts: seq<set<int>>, lane: seq<int>, r: int, t: int)
    requires -1 <= r < |lane| && forall i :: 0 <= i <= r ==> lane[i] < |contexts|
  {
    forall i :: 0 <= i <= r && 0 <= lane[i] ==> t in contexts[lane[i]]
  }

  /** What is not being added, or no longer, changes nowhere. */
  lemma {:induction false} OthersStay(contexts: seq<set<int>>, lane: seq<int>, r: int, left: set<int>, t: int, z: nat)
    requires -1 <= r < |lane| && (forall i :: 0 <= i <= r ==> lane[i] < |contexts|) && z < |contexts|
    requires t !in left || z !in lane[..r + 1] || t in contexts[z]
    ensures t in AddedDown(contexts, lane, r, left)[z] <==> t in contexts[z]
    decreases r
  {
    if 0 <= r && left != {} {
      assert lane[..r + 1] == lane[..r] + [lane[r]];
      var rest := if lane[r] < 0 then left else left - contexts[lane[r]];
      var next := if lane[r] < 0 then contexts else contexts[lane[r] := contexts[lane[r]] + rest];
      OthersStay(next, lane, r - 1, rest, t, z);
    }
  }

  lemma {:induction false} AddedDownAddsOnLane(contexts: seq<set<int>>, lane: seq<int>, r: int, left: set<int>)
    requires -1 <= r < |lane| && forall i :: 0 <= i <= r ==> lane[i] < |contexts|
    ensures forall z :: 0 <= z < |contexts| ==>
      contexts[z] <= AddedDown(contexts, lane, r, left)[z] <= contexts[z] + left
    ensures forall z :: 0 <= z < |contexts| && z !in lane[..r + 1] ==>
      AddedDown(contexts, lane, r, left)[z] == contexts[z]
    decreases r
  {
    if 0 <= r && left != {} {
      assert lane[..r + 1] == lane[..r] + [lane[r]];
      var rest := if lane[r] < 0 then left else left - contexts[lane[r]];
      var next := if lane[r] < 0 then contexts else contexts[lane[r] := contexts[lane[r]] + rest];
      AddedDownAddsOnLane(next, lane, r - 1, rest);
    }
  }

  /** What keeps `t` back is the same before and after `v`, on top, has taken it. */
  lemma BlocksOneLower(contexts: seq<set<int>>, lane: seq<int>, r: int, t: int, next: seq<set<int>>)
    requires 0 <= r < |lane| && (forall i :: 0 <= i <= r ==> lane[i] < |contexts|) && |next| == |contexts|
    requires 0 <= lane[r] ==> t !in contexts[lane[r]]
    requires forall z :: 0 <= z < |contexts| ==> (t in next[z] <==> t in contexts[z] || z == lane[r])
    ensures NothingIsLost(contexts, lane, r, t) <==> NothingIsLost(next, lane, r - 1, t)
  {
    forall j: nat, z: int | j <= r && 0 <= z
      ensures z in lane[j..r + 1] <==> z in lane[j..r] || z == lane[r]
    {
      assert lane[j..r + 1] == lane[j..r] + [lane[r]];
    }
    assert forall j :: 0 <= j < r && 0 <= lane[j] ==>
      (Blocks(contexts, lane, r, j, t) <==> Blocks(next, lane, r - 1, j, t));
    assert 0 <= lane[r] ==> !Blocks(contexts, lane, r, r, t);
  }

  lemma StoppedOnTop(contexts: seq<set<int>>, lane: seq<int>, r: int, t: int)
    requires 0 <= r < |lane| && (forall i :: 0 <= i <= r ==> lane[i] < |contexts|)
    requires 0 <= lane[r] && t in contexts[lane[r]]
    ensures AllHave(contexts, lane, r, t) <==> NothingIsLost(contexts, lane, r, t)
  {
    assert Blocks(contexts, lane, r, r, t) && lane[r..r + 1] == [lane[r]];
  }

  /** A terminal gets to all addresses exactly when none of those that keep it back is above one that
      still needs it. */
  lemma {:induction false} WhenAddingReachesAll(
      contexts: seq<set<int>>, lane: seq<int>, r: int, left: set<int>, t: int)
    requires -1 <= r < |lane| && (forall i :: 0 <= i <= r ==> lane[i] < |contexts|) && t in left
    ensures AllHave(AddedDown(contexts, lane, r, left), lane, r, t) <==> NothingIsLost(contexts, lane, r, t)
    decreases r
  {
    hide Blocks;
    if 0 <= r {
      var v := lane[r];
      var rest := if v < 0 then left else left - contexts[v];
      var next := if v < 0 then contexts else contexts[v := contexts[v] + rest];
      AddedDownAddsOnLane(next, lane, r - 1, rest);
      if 0 <= v && t in contexts[v] {
        forall z: nat | z < |contexts|
          ensures t in AddedDown(contexts, lane, r, left)[z] <==> t in contexts[z]
        {
          OthersStay(next, lane, r - 1, rest, t, z);
        }
        StoppedOnTop(contexts, lane, r, t);
      } else {
        WhenAddingReachesAll(next, lane, r - 1, rest, t);
        BlocksOneLower(contexts, lane, r, t, next);
      }
    }
  }

  /** An address that is on the lane twice keeps the contexts from all below its lower place. */
  lemma AddingMayNotReachAll(z: nat, v: nat, t: int)
    requires z != v
    ensures var contexts: seq<set<int>> := seq(z + v + 1, _ => {});
            !AllHave(AddedDown(contexts, [z, v, v], 2, {t}), [z, v, v], 2, t)
  {
    var contexts: seq<set<int>> := seq(z + v + 1, _ => {});
    var lane := [z, v, v];
    WhenAddingReachesAll(contexts, lane, 2, {t}, t);
    assert lane[2] in lane[2..3];
    assert Blocks(contexts, lane, 2, 1, t) && lane[1..3] == [v, v];
    assert 0 <= lane[0] && t !in contexts[lane[0]] && lane[0] !in lane[1..3];
  }

  lemma {:induction false} NestedLaneLosesNothing(lg: LaneGraph, st: LaneState, zp: nat, s: set<int>)
    requires WellFormed(lg, st) && zp < |st.lane| && LaneIsNested(lg, st, true) && IsUnblocked(st, zp, s)
    ensures AddedTo(st, zp + 1, s, AddedDown(st.contexts, st.lane, zp, s))
  {
    var contexts := AddedDown(st.contexts, st.lane, zp, s);
    AddedDownAddsOnLane(st.contexts, st.lane, zp, s);
    forall t | t in s
      ensures AllHave(contexts, st.lane, zp, t)
    {
      NothingIsBlocked(lg, st, zp, s, t);
      WhenAddingReachesAll(st.contexts, st.lane, zp, s, t);
    }
    forall z | 0 <= z < |contexts| && z in st.lane[..zp + 1]
      ensures contexts[z] == st.contexts[z] + s
    {
      var i :| 0 <= i <= zp && st.lane[i] == z;
      forall t | t in s
        ensures t in contexts[z]
      {
        assert AllHave(contexts, st.lane, zp, t);
      }
    }
  }

  lemma NothingIsBlocked(lg: LaneGraph, st: LaneState, zp: nat, s: set<int>, t: int)
    requires WellFormed(lg, st) && zp < |st.lane| && LaneIsNested(lg, st, true) && IsUnblocked(st, zp, s) && t in s
    ensures NothingIsLost(st.contexts, st.lane, zp, t)
  {
    forall i, j | 0 <= i < j <= zp && 0 <= st.lane[i] && 0 <= st.lane[j] && Blocks(st.contexts, st.lane, zp, j, t)
      ensures t in st.contexts[st.lane[i]]
    {
      assert st.IsEntry(i) && st.IsEntry(j);
      if st.IsEntry(zp) && s <= st.contexts[st.lane[zp]] {
        assert st.contexts[st.lane[zp]] <= st.contexts[st.lane[i]];
      } else {
        NotHigherUp(st, zp, j);
      }
    }
  }

  lemma NotHigherUp(st: LaneState, zp: nat, j: nat)
    requires j <= zp < |st.lane| && st.IsEntry(j) && forall i, k :: k <= zp ==> !AreTwice(st, i, k)
    ensures st.lane[j] !in st.lane[j + 1..zp + 1]
  {
    forall k | j + 1 <= k <= zp
      ensures st.lane[k] != st.lane[j]
    {
      assert !AreTwice(st, j, k);
    }
  }
}
