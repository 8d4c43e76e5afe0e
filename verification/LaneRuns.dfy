/** What a run of lane tracing computes, step by step: the functions that the methods of `LaneTracing` are
    proved against. */
module LaneRuns {
  import opened Lanes
  import opened LaneStates
  import opened ContextAdding

  /** A run ends, or gives up on the grammar, or fails one of its own checks. */
  datatype Outcome = Done | Ambiguous | CheckFailed

  /** In the loop over the originators: how many have failed the tests, and the first of them. */
  datatype Progress = Progress(outcome: Outcome, st: LaneState, nf: nat, ff: int)

  /** Between the turns of a run. */
  datatype Run = Tracing(st: LaneState) | Ended(st: LaneState) | Aborted(outcome: Outcome)

  ghost predicate Fits(lg: LaneGraph, st: LaneState) {
    && lg.Valid() && |st.contexts| == |st.complete| == |st.inLane| == |lg.og|
    && (forall i :: 0 <= i < |st.lane| ==> st.lane[i] < |lg.og|)
    && (forall s :: 0 <= s < |st.stack| ==> st.stack[s] < |lg.og|)
  }

  lemma WellFormedFits(lg: LaneGraph, st: LaneState)
    requires WellFormed(lg, st)
    ensures Fits(lg, st)
  {
  }

  // ----- one originator -----

  /** The first place of `item` from `from` on. */
  ghost function PlaceOf(lane: seq<int>, item: int, from: nat): (at: nat)
    requires from <= |lane|
    ensures from <= at <= |lane|
    decreases |lane| - from
  {
    if from < |lane| && lane[from] != item then PlaceOf(lane, item, from + 1) else from
  }

  lemma {:induction false} FirstPlace(lane: seq<int>, item: int, from: nat, at: nat)
    requires from <= at < |lane| && lane[at] == item && forall i :: from <= i < at ==> lane[i] != item
    ensures PlaceOf(lane, item, from) == at
    decreases at - from
  {
    if from < at {
      FirstPlace(lane, item, from + 1, at);
    }
  }

  /** The generated contexts go down the lane. */
  ghost function Adding(lg: LaneGraph, st: LaneState, zp: nat, s: set<int>): LaneState
    requires Fits(lg, st) && zp < |st.lane|
  {
    st.(contexts := AddedDown(st.contexts, st.lane, zp, s))
  }

  /** The state after the originator `w` has failed the tests as failure number `nf`, counted from 0. */
  ghost function AfterFailure(st: LaneState, w: nat, nf: nat): LaneState
    requires w < |st.inLane| && st.lane != []
  {
    if nf == 0 then PushedOnLane(st, w)
    else if nf == 1 then PushedOnStack(MarkedUnderTop(st), w)
    else PushedOnStack(st, w)
  }

  /** The originator fails the tests: the lane goes on there, now or later. */
  ghost function Failing(lg: LaneGraph, st: LaneState, zp: nat, w: nat, nf: nat, ff: int): Progress
    requires Fits(lg, st) && zp < |st.lane| && w < |lg.og|
  {
    if nf == 1 && (|st.lane| < 2 || st.lane[|st.lane| - 2] != st.lane[zp]) then Progress(CheckFailed, st, nf, ff)
    else Progress(Done, AfterFailure(st, w, nf), nf + 1, if nf == 0 then w else ff)
  }

  /** The originator is on the lane: the markers in between move up, and its contexts are added. */
  ghost function Closing(lg: LaneGraph, st: LaneState, zp: nat, w: nat, nf: nat): LaneState
    requires Fits(lg, st) && zp < |st.lane| && w < |lg.og|
  {
    var loc := PlaceOf(st.lane, w, 0);
    if loc <= zp && (0 < nf ==> zp < |st.lane| - 1) then
      var st1 := Cycled(st, loc, zp, 0 < nf);
      if Fits(lg, st1) && zp < |st1.lane| then Adding(lg, st1, zp, st.contexts[w]) else st
    else st
  }

  ghost function Stepped(lg: LaneGraph, st: LaneState, zp: nat, w: nat, nf: nat, ff: int): Progress
    requires Fits(lg, st) && zp < |st.lane| && w < |lg.og|
  {
    var firsts := lg.first[w] - {NULL};
    if firsts != {} then
      if NULL !in lg.first[w] then Progress(Done, Adding(lg, st, zp, firsts), nf, ff)
      else if st.complete[w] then Progress(Done, Adding(lg, st, zp, firsts + st.contexts[w]), nf, ff)
      else if st.inLane[w] then Progress(Ambiguous, st, nf, ff)
      else Failing(lg, Adding(lg, st, zp, firsts), zp, w, nf, ff)
    else if st.complete[w] then Progress(Done, Adding(lg, st, zp, st.contexts[w]), nf, ff)
    else if st.inLane[w] then Progress(Done, Closing(lg, st, zp, w, nf), nf, ff)
    else Failing(lg, st, zp, w, nf, ff)
  }

  /** The originators `edges`, one after another. */
  ghost function Looped(lg: LaneGraph, edges: seq<nat>, st: LaneState, zp: nat, nf: nat, ff: int): Progress
    decreases |edges|
  {
    if edges == [] || !Fits(lg, st) || |st.lane| <= zp || |lg.og| <= edges[0] then Progress(Done, st, nf, ff)
    else
      var p := Stepped(lg, st, zp, edges[0], nf, ff);
      if p.outcome.Done? then Looped(lg, edges[1..], p.st, zp, p.nf, p.ff) else p
  }

  // ----- popping -----

  /** Off the stack, until an address goes on the lane or a marker comes off both. */
  ghost function StackPopped(st: LaneState): (p: (LaneState, bool))
    requires st.lane != []
    ensures !p.1 ==> |p.0.lane| < |st.lane|
    decreases |st.stack|
  {
    var top := |st.stack| - 1;
    if top < 0 || st.stack[top] == MARKER then
      (st.(lane := st.lane[..|st.lane| - 1], stack := if top < 0 then [] else st.stack[..top]), false)
    else if 0 <= st.stack[top] < |st.complete| == |st.inLane| && !st.complete[st.stack[top]] then
      (Unstacked(PushedOnLane(st, st.stack[top])), true)
    else StackPopped(Unstacked(st))
  }

  /** The contexts and the flag of `tau` go to the addresses in `list`. */
  ghost function Spread(st: LaneState, tau: nat, list: seq<nat>): (st': LaneState)
    ensures st'.lane == st.lane && st'.stack == st.stack
    decreases |list|
  {
    if list == [] then st
    else
      var n := |list| - 1;
      var st1 := Spread(st, tau, list[..n]);
      if tau < |st1.contexts| == |st1.complete| && list[n] < |st1.contexts| then
        st1.(contexts := st1.contexts[list[n] := st1.contexts[tau]], complete := st1.complete[list[n] := true])
      else st1
  }

  /** The address on top is complete, and so are its siblings. */
  ghost function Completed(sibs: seq<seq<nat>>, st: LaneState): (st': LaneState)
    requires st.lane != [] && 0 <= st.lane[|st.lane| - 1]
    ensures st'.lane == st.lane && st'.stack == st.stack
  {
    var tau := st.lane[|st.lane| - 1];
    if tau < |st.complete| == |st.inLane| && tau < |sibs| then Spread(TopCompleted(st), tau, sibs[tau]) else st
  }

  /** Off the lane, until an address from the stack goes on it or the last address is complete. */
  ghost function LanePopped(sibs: seq<seq<nat>>, zj: nat, st: LaneState): (LaneState, bool)
    decreases |st.lane|
  {
    if st.lane == [] then (st, true)
    else
      var top := st.lane[|st.lane| - 1];
      if top == MARKER then
        var p := StackPopped(st);
        if p.1 then (p.0, false) else LanePopped(sibs, zj, p.0)
      else if top < 0 then LanePopped(sibs, zj, st.(lane := st.lane[..|st.lane| - 1]))
      else
        var st1 := Completed(sibs, st);
        if |st.lane| == 1 && st.lane[0] == zj then (st1, true)
        else LanePopped(sibs, zj, st1.(lane := st1.lane[..|st1.lane| - 1]))
  }

  // ----- the whole run -----

  /** One turn of the main loop. */
  ghost function Turned(lg: LaneGraph, sibs: seq<seq<nat>>, zj: nat, run: Run): Run {
    if !run.Tracing? || run.st.lane == [] || !lg.Valid() then run
    else
      var zp := |run.st.lane| - 1;
      var z := run.st.lane[zp];
      var p := Looped(lg, if 0 <= z < |lg.og| then lg.og[z] else [], run.st, zp, 0, -1);
      if !p.outcome.Done? then Aborted(p.outcome)
      else if 0 < p.nf then Tracing(p.st)
      else
        var q := LanePopped(sibs, zj, p.st);
        if q.1 then Ended(q.0) else Tracing(q.0)
  }

  ghost function Turns(lg: LaneGraph, sibs: seq<seq<nat>>, zj: nat, run: Run, n: nat): Run {
    if n == 0 then run else Turned(lg, sibs, zj, Turns(lg, sibs, zj, run, n - 1))
  }

  ghost function Started(contexts: seq<set<int>>, complete: seq<bool>, zj: nat): LaneState
    requires zj < |complete|
  {
    LaneState(contexts, complete, [zj], seq(|complete|, _ => false)[zj := true], [])
  }

  /** A run that is over stays so: two ways of counting its turns end alike. */
  lemma {:induction false} OverStays(lg: LaneGraph, sibs: seq<seq<nat>>, zj: nat, run: Run, m: nat, n: nat)
    requires m <= n && !Turns(lg, sibs, zj, run, m).Tracing?
    ensures Turns(lg, sibs, zj, run, n) == Turns(lg, sibs, zj, run, m)
    decreases n
  {
    if m < n {
      OverStays(lg, sibs, zj, run, m, n - 1);
    }
  }
}
