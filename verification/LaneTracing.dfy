/** Lane tracing (`compute_context_set` and its parts): it always ends, records nothing that is not a
    context, and finds every context of the addresses it completes unless it traces an address again
    that is still on the lane. */
module LaneTracing {
  import opened Containers
  import opened Grammars
  import opened Lr0
  import opened Originators
  import opened Lanes
  import opened LaneStates
  import opened Pushers
  import opened ContextAdding
  import opened LaneRuns
  import opened Snares
  import opened FailedChecks
  import FirstSets

  /** The symbols after the one that address `z` expects. */
  function FollowString(pip: ParserInProgress, z: nat): seq<nat>
    requires pip.IsAddress(z) && 0 <= pip.ConfigAt(z) < |pip.cs|
    requires pip.cs[pip.ConfigAt(z)].production < |pip.g.productions|
  {
    var config := pip.cs[pip.ConfigAt(z)];
    var rhs := pip.g.productions[config.production].rhs;
    if config.dot + 1 < |rhs| then rhs[config.dot + 1..] else []
  }

  method GetFollowString(pip: ParserInProgress, z: nat) returns (out: seq<nat>)
    requires pip.IsAddress(z) && 0 <= pip.ConfigAt(z) < |pip.cs|
    requires pip.cs[pip.ConfigAt(z)].production < |pip.g.productions|
    ensures out == FollowString(pip, z)
  {
    var config := pip.cs[pip.ConfigAt(z)];
    var rhs := pip.g.productions[config.production].rhs;
    var outSize := |rhs| - (config.dot + 1);
    out := [];
    if outSize < 1 {
      return;
    }
    for i := config.dot + 1 to |rhs|
      invariant out == rhs[config.dot + 1..i]
    {
      out := out + [rhs[i]];
    }
  }

  ghost predicate IsAccepting(pip: ParserInProgress, z: nat) {
    && pip.IsAddress(z) && 0 <= pip.ConfigAt(z) < |pip.cs|
    && pip.cs[pip.ConfigAt(z)].production == pip.g.AcceptProduction()
  }

  /** `lg` is the lane graph of the machine. */
  ghost predicate Describes(lg: LaneGraph, pip: ParserInProgress, og: ParserGraph, firstSets: seq<set<int>>) {
    && pip.Valid() && lg.Valid() && lg.og == og && IsOriginatorGraph(pip, og)
    && |firstSets| == pip.g.nsymbols
    && (forall z: nat :: z < |og| ==>
          FirstSets.InRange(FollowString(pip, z), |firstSets|)
          && lg.first[z] == FirstSets.FirstOfString(FollowString(pip, z), firstSets))
    && (forall z: nat :: z < |og| ==> lg.base[z] == if IsAccepting(pip, z) then {pip.g.EndTerminal()} else {})
  }

  // ----- the parts of the algorithm -----

  /** The first place of `item`. */
  method Find(lane: seq<int>, item: int) returns (at: nat)
    requires item in lane
    ensures at < |lane| && lane[at] == item
    ensures forall i :: 0 <= i < at ==> lane[i] != item
  {
    at := 0;
    while lane[at] != item
      invariant at < |lane| && forall i :: 0 <= i < at ==> lane[i] != item
      decreases |lane| - at
    {
      at := at + 1;
    }
  }

  method PushMarkers(lane: seq<int>, r: nat) returns (lane': seq<int>)
    ensures lane' == lane + Markers(r)
  {
    lane' := lane;
    for i := 0 to r
      invariant lane' == lane + Markers(i)
    {
      lane' := lane' + [MARKER];
    }
  }

  /** Turns the markers from `lo` up to `hi` into zeros and counts them. */
  method ZeroMarkers(lane: seq<int>, lo: nat, hi: nat) returns (lane': seq<int>, r: nat)
    requires lo <= hi <= |lane|
    ensures lane' == Zeroed(lane, lo, hi) && r == Marks(lane, hi) - Marks(lane, lo)
  {
    lane', r := lane, 0;
    for i := lo to hi
      invariant lane' == Zeroed(lane, lo, i)
      invariant r == Marks(lane, i) - Marks(lane, lo)
    {
      if lane'[i] == MARKER {
        r := r + 1;
        lane' := lane'[i := ZERO];
      }
    }
  }

  method MoveMarkers(lane: seq<int>, zetaPrime: nat, zetaPointer: nat, testsFailed: bool)
    returns (lane': seq<int>, ghost loc: nat)
    requires zetaPointer < |lane| && (testsFailed ==> zetaPointer < |lane| - 1)
    requires exists i :: 0 <= i <= zetaPointer && lane[i] == zetaPrime
    ensures loc <= zetaPointer && lane[loc] == zetaPrime && loc == PlaceOf(lane, zetaPrime, 0)
    ensures lane' == Moved(lane, loc, zetaPointer, testsFailed)
  {
    var locOfZetaPrime := Find(lane, zetaPrime);
    loc := locOfZetaPrime;
    FirstPlace(lane, zetaPrime, 0, loc);
    var r := 0;
    lane' := lane;
    if locOfZetaPrime + 1 < zetaPointer {
      lane', r := ZeroMarkers(lane, locOfZetaPrime + 1, zetaPointer);
    } else {
      assert Zeroed(lane, loc + 1, zetaPointer) == lane;
    }
    if testsFailed {
      var topAddr := lane'[|lane'| - 1];
      lane' := PushMarkers(lane'[..|lane'| - 1], r);
      lane' := lane' + [topAddr];
    } else {
      lane' := PushMarkers(lane', r);
    }
  }

  // ----- the loop over the originators of the top of the lane -----

  /** The positions below `zp` are traced, and at `zp` the first `k` originators are served. */
  ghost predicate TracedSoFar(lg: LaneGraph, st: LaneState, zp: nat, k: nat, exact: bool)
    requires WellFormed(lg, st) && st.IsEntry(zp) && k <= |lg.og[st.lane[zp]]|
  {
    && TracedBelow(lg, st, zp, exact)
    && forall w: nat :: w < |lg.og| && w in lg.og[st.lane[zp]][..k] ==> IsServed(lg, st, zp, w, exact)
  }

  /** The first `k` originators of the address at `zp` have been looked at; `nf` of them led on, the
      first of which, `ff`, is on top of the lane. */
  ghost predicate Looping(lg: LaneGraph, zj: nat, st: LaneState, zp: nat, k: nat, nf: nat, ff: int, exact: bool) {
    && Core(lg, zj, st, exact) && st.IsEntry(zp) && k <= |lg.og[st.lane[zp]]|
    && TracedSoFar(lg, st, zp, k, exact)
    && (forall j :: zp < j < |st.lane| - (if nf == 0 then 0 else 1) ==> st.lane[j] == MARKER)
    && (nf > 0 ==>
          && zp < |st.lane| - 1 && st.IsEntry(|st.lane| - 1) && st.lane[|st.lane| - 1] == ff
          && ff in lg.og[st.lane[zp]][..k] && !st.complete[ff])
    && (nf > 1 ==> Marks(st.lane, zp) < Marks(st.lane, |st.lane|))
  }

  /** What is served stays served in the next state. */
  ghost predicate CarriesOver(lg: LaneGraph, st: LaneState, st': LaneState, zp: nat, exact: bool)
    requires WellFormed(lg, st) && WellFormed(lg, st')
  {
    && (forall i :: 0 <= i <= zp && st'.IsEntry(i) ==> st.IsEntry(i) && st'.lane[i] == st.lane[i])
    && (forall i: nat, w: nat :: i <= zp && st.IsEntry(i) && w < |lg.og| && IsServed(lg, st, i, w, exact) ==>
          st'.IsEntry(i) && IsServed(lg, st', i, w, exact))
  }

  lemma TracedCarriesOver(
      lg: LaneGraph, st: LaneState, st': LaneState, zp: nat, k: nat, exact: bool)
    requires WellFormed(lg, st) && WellFormed(lg, st') && CarriesOver(lg, st, st', zp, exact)
    requires st.IsEntry(zp) && st'.IsEntry(zp) && k <= |lg.og[st.lane[zp]]| && TracedSoFar(lg, st, zp, k, exact)
    ensures TracedSoFar(lg, st', zp, k, exact)
  {
    forall i, w: nat | 0 <= i < zp && st'.IsEntry(i) && HasEdge(lg.og, st'.lane[i], w)
      ensures IsServed(lg, st', i, w, exact)
    {
      assert IsTraced(lg, st, i, exact);
    }
  }

  /** The addresses that have never been on the lane. */
  ghost function Fresh(st: LaneState): set<int> {
    set z | 0 <= z < |st.complete| && !st.complete[z] && z !in st.lane
  }

  lemma AddKeepsLooping(
      lg: LaneGraph, zj: nat, st: LaneState, zp: nat, k: nat, nf: nat, ff: int, s: set<int>,
      contexts: seq<set<int>>, exact: bool)
    requires Looping(lg, zj, st, zp, k, nf, ff, exact)
    requires forall t :: t in s ==> InContext(lg, st.lane[zp], t)
    requires Added(st, zp + 1, s, contexts, exact)
    ensures Looping(lg, zj, st.(contexts := contexts), zp, k, nf, ff, exact)
    ensures exact ==> s <= contexts[st.lane[zp]]
  {
    var st' := st.(contexts := contexts);
    AddKeepsCore(lg, zj, st, zp, s, contexts, exact);
    assert st.lane[..zp + 1][zp] == st.lane[zp];
    TracedCarriesOver(lg, st, st', zp, k, exact);
  }

  /** What can follow at an originator is a context. */
  lemma FirstIsContext(lg: LaneGraph, z: nat, w: nat, t: int)
    requires lg.Valid() && HasEdge(lg.og, z, w) && t in lg.first[w] && t != NULL
    ensures InContext(lg, z, t)
  {
    ReachesItself(lg, z);
    assert Contributes(lg, z, t);
  }

  lemma BelowLeadsOn(lg: LaneGraph, zj: nat, st: LaneState, zp: nat, w: nat, i: int, exact: bool)
    requires Core(lg, zj, st, exact) && st.IsEntry(zp) && st.IsEntry(i) && i <= zp
    requires Continues(lg, st.lane[zp], w)
    ensures Leads(lg, st.lane[i], w)
  {
    if i == zp {
      StepLeads(lg, st.lane[zp], w);
    } else {
      LeadsFurther(lg, st.lane[i], st.lane[zp], w);
    }
  }

  /** Originator `k` of the address at `zp` leads on and is fresh; its own first set has been added. */
  ghost predicate LeadsOn(lg: LaneGraph, zj: nat, st: LaneState, zp: nat, k: nat, nf: nat, ff: int, exact: bool) {
    && Looping(lg, zj, st, zp, k, nf, ff, exact) && k < |lg.og[st.lane[zp]]|
    && var w := lg.og[st.lane[zp]][k];
       && Continues(lg, st.lane[zp], w) && w < |lg.og| && w in Fresh(st)
       && (exact ==> lg.first[w] - {NULL} <= st.contexts[st.lane[zp]])
  }

  /** Without a tangle nothing is lost; once an originator has led on, nothing is on the lane twice. */
  ghost predicate LoopIsTame(lg: LaneGraph, st: LaneState, nf: nat)
    requires lg.Valid()
  {
    IsTame(lg, st) && (nf > 0 ==> HasNoDoubles(st))
  }

  /** In an exact run a handled originator has no contexts that its lane position lacks. */
  lemma HandledIsContained(lg: LaneGraph, zj: nat, st: LaneState, i: nat, w: nat)
    requires Core(lg, zj, st, true) && st.IsEntry(i) && w < |lg.og| && IsHandled(lg, st, i, w, true)
    ensures st.contexts[w] <= st.contexts[st.lane[i]]
    ensures w in Fresh(st) ==> exists s :: st.WaitsAbove(s, i) && st.stack[s] == w
  {
    if j :| i < j < |st.lane| && st.lane[j] == w {
      assert st.IsEntry(j);
    } else if s :| st.WaitsAbove(s, i) && st.stack[s] == w {
      assert st.contexts[st.stack[s]] <= st.contexts[st.lane[i]] + {};
    }
  }

  /** An address that is on the lane a second time has nothing to gain from its originators. */
  lemma SecondHasAll(
      lg: LaneGraph, zj: nat, st: LaneState, zp: nat, k: nat, nf: nat, ff: int, w: nat)
    requires Looping(lg, zj, st, zp, k, nf, ff, true) && IsSecond(st, zp) && HasEdge(lg.og, st.lane[zp], w)
    requires IsCalm(st)
    ensures w < |lg.og| && lg.first[w] - {NULL} <= st.contexts[st.lane[zp]]
    ensures Vanishes(lg.first[w]) ==> st.contexts[w] <= st.contexts[st.lane[zp]] && w !in Fresh(st)
  {
    var l :| AreTwice(st, l, zp);
    assert IsTraced(lg, st, l, true) && IsServed(lg, st, l, w, true);
    if Vanishes(lg.first[w]) {
      HandledIsContained(lg, zj, st, l, w);
      if s :| st.WaitsAbove(s, l) && st.stack[s] == w {
        assert IsDealtWith(st, st.stack[s]);
      }
    }
  }

  /** What originator `k` has to add is not kept from any address. */
  lemma OriginatorIsUnblocked(
      lg: LaneGraph, zj: nat, st: LaneState, zp: nat, k: nat, nf: nat, ff: int, s: set<int>)
    requires Looping(lg, zj, st, zp, k, nf, ff, true) && LoopIsTame(lg, st, nf) && k < |lg.og[st.lane[zp]]|
    requires lg.og[st.lane[zp]][k] < |lg.og|
    requires var w := lg.og[st.lane[zp]][k];
      s <= (lg.first[w] - {NULL}) + if Vanishes(lg.first[w]) then st.contexts[w] else {}
    ensures IsUnblocked(st, zp, s)
  {
    var w := lg.og[st.lane[zp]][k];
    assert HasEdge(lg.og, st.lane[zp], w);
    if IsSecond(st, zp) {
      SecondHasAll(lg, zj, st, zp, k, nf, ff, w);
    } else {
      forall i, j | j <= zp
        ensures !AreTwice(st, i, j)
      {
        FlatBelow(st, zp, i, j);
      }
    }
  }

  /** The lane goes on only from addresses that are not there twice. */
  lemma LeadsOnHasNoDoubles(lg: LaneGraph, zj: nat, st: LaneState, zp: nat, k: nat, nf: nat, ff: int)
    requires LeadsOn(lg, zj, st, zp, k, nf, ff, true) && LoopIsTame(lg, st, nf)
    ensures HasNoDoubles(st)
  {
    var w := lg.og[st.lane[zp]][k];
    if IsSecond(st, zp) {
      SecondHasAll(lg, zj, st, zp, k, nf, ff, w);
    }
    forall i, j
      ensures !AreTwice(st, i, j)
    {
      if nf == 0 && st.IsEntry(j) {
        assert j <= zp;
        FlatBelow(st, zp, i, j);
      }
    }
  }

  lemma FreshHasNothing(lg: LaneGraph, zj: nat, st: LaneState, w: nat, exact: bool)
    requires Core(lg, zj, st, exact) && w < |lg.og|
    ensures w in Fresh(st) <==> !st.complete[w] && !st.inLane[w]
    ensures w in Fresh(st) ==> st.contexts[w] == {}
  {
  }

  lemma FirstFailure(
      lg: LaneGraph, zj: nat, st: LaneState, zp: nat, k: nat, ff: int, exact: bool)
    requires LeadsOn(lg, zj, st, zp, k, 0, ff, exact)
    ensures Looping(lg, zj, PushedOnLane(st, lg.og[st.lane[zp]][k]), zp, k + 1, 1, lg.og[st.lane[zp]][k], exact)
    ensures Fresh(PushedOnLane(st, lg.og[st.lane[zp]][k])) < Fresh(st)
  {
    var w := lg.og[st.lane[zp]][k];
    var st' := PushedOnLane(st, w);
    forall i | st.IsEntry(i)
      ensures i <= zp && Leads(lg, st.lane[i], w)
    {
      BelowLeadsOn(lg, zj, st, zp, w, i, exact);
    }
    FreshHasNothing(lg, zj, st, w, exact);
    PushKeepsCore(lg, zj, st, w, exact);
    PushKeepsServed(lg, st, w, exact);
    assert CarriesOver(lg, st, st', zp, exact);
    TracedCarriesOver(lg, st, st', zp, k, exact);
    OneMoreServed(lg, st', zp, k, exact);
    assert w in st'.lane;
    assert Fresh(st') <= Fresh(st) && w !in Fresh(st');
  }

  lemma OneMoreServed(lg: LaneGraph, st: LaneState, zp: nat, k: nat, exact: bool)
    requires WellFormed(lg, st) && st.IsEntry(zp) && k < |lg.og[st.lane[zp]]| && TracedSoFar(lg, st, zp, k, exact)
    requires lg.og[st.lane[zp]][k] < |lg.og| && IsServed(lg, st, zp, lg.og[st.lane[zp]][k], exact)
    ensures TracedSoFar(lg, st, zp, k + 1, exact)
  {
    var edges := lg.og[st.lane[zp]];
    assert edges[..k + 1] == edges[..k] + [edges[k]];
  }

  lemma WaitingKeepsCore(
      lg: LaneGraph, zj: nat, st: LaneState, zp: nat, w: nat, exact: bool)
    requires Core(lg, zj, st, exact) && st.IsEntry(zp) && Continues(lg, st.lane[zp], w) && w < |lg.og|
    requires w in Fresh(st)
    requires forall j :: zp < j < |st.lane| - 1 ==> st.lane[j] == MARKER
    ensures Core(lg, zj, PushedOnStack(st, w), exact)
  {
    forall i | st.IsEntry(i) && Marks(st.lane, i) < Marks(st.lane, |st.lane|)
      ensures Leads(lg, st.lane[i], w)
    {
      assert i <= zp;
      BelowLeadsOn(lg, zj, st, zp, w, i, exact);
    }
    FreshHasNothing(lg, zj, st, w, exact);
    WaitKeepsCore(lg, zj, st, w, exact);
  }

  lemma {:induction false} WaitingIsServed(lg: LaneGraph, st: LaneState, zp: nat, k: nat, exact: bool)
    requires WellFormed(lg, st) && st.IsEntry(zp) && k < |lg.og[st.lane[zp]]| && TracedSoFar(lg, st, zp, k, exact)
    requires Marks(st.lane, zp) < Marks(st.lane, |st.lane|) && lg.og[st.lane[zp]][k] < |lg.og|
    requires exact ==> lg.first[lg.og[st.lane[zp]][k]] - {NULL} <= st.contexts[st.lane[zp]]
    ensures WellFormed(lg, PushedOnStack(st, lg.og[st.lane[zp]][k]))
    ensures TracedSoFar(lg, PushedOnStack(st, lg.og[st.lane[zp]][k]), zp, k + 1, exact)
  {
    var w := lg.og[st.lane[zp]][k];
    var st' := PushedOnStack(st, w);
    WaitKeepsServed(lg, st, w, exact);
    assert CarriesOver(lg, st, st', zp, exact);
    TracedCarriesOver(lg, st, st', zp, k, exact);
    OneMoreServed(lg, st', zp, k, exact);
  }

  lemma LaterFailure(
      lg: LaneGraph, zj: nat, st: LaneState, zp: nat, k: nat, nf: nat, ff: int, exact: bool)
    requires 1 < nf && LeadsOn(lg, zj, st, zp, k, nf, ff, exact)
    ensures Looping(lg, zj, PushedOnStack(st, lg.og[st.lane[zp]][k]), zp, k + 1, nf + 1, ff, exact)
    ensures Fresh(PushedOnStack(st, lg.og[st.lane[zp]][k])) == Fresh(st)
  {
    var w := lg.og[st.lane[zp]][k];
    WaitingKeepsCore(lg, zj, st, zp, w, exact);
    WaitingIsServed(lg, st, zp, k, exact);
    KeepsFirstFailed(lg, st, zp, k, ff);
  }

  lemma KeepsFirstFailed(lg: LaneGraph, st: LaneState, zp: nat, k: nat, ff: int)
    requires WellFormed(lg, st) && st.IsEntry(zp) && k < |lg.og[st.lane[zp]]| && ff in lg.og[st.lane[zp]][..k]
    ensures ff in lg.og[st.lane[zp]][..k + 1]
  {
    var edges := lg.og[st.lane[zp]];
    assert edges[..k + 1] == edges[..k] + [edges[k]];
  }

  lemma {:induction false} MarkCarriesOver(lg: LaneGraph, st: LaneState, zp: nat, exact: bool)
    requires WellFormed(lg, st) && st.IsEntry(zp) && zp == |st.lane| - 2 && st.IsEntry(|st.lane| - 1)
    ensures WellFormed(lg, MarkedUnderTop(st)) && CarriesOver(lg, st, MarkedUnderTop(st), zp, exact)
    ensures Marks(MarkedUnderTop(st).lane, zp) < Marks(MarkedUnderTop(st).lane, |st.lane| + 1)
    ensures Fresh(MarkedUnderTop(st)) == Fresh(st)
  {
    var st' := MarkedUnderTop(st);
    MarkKeepsServed(lg, st, exact);
    MarksUnderTop(st.lane);
    MarksGrow(st.lane, zp, |st.lane|);
    forall z | 0 <= z
      ensures z in st'.lane <==> z in st.lane
    {
      assert forall i :: 0 <= i <= zp ==> st'.lane[i] == st.lane[i];
      assert st'.lane[|st.lane|] == st.lane[zp + 1];
    }
  }

  /** The marker goes in and the second failure becomes a later one. */
  lemma MarkForSecondFailure(
      lg: LaneGraph, zj: nat, st: LaneState, zp: nat, k: nat, ff: int, exact: bool)
    requires LeadsOn(lg, zj, st, zp, k, 1, ff, exact) && |st.lane| - 2 == zp
    ensures LeadsOn(lg, zj, MarkedUnderTop(st), zp, k, 2, ff, exact)
    ensures Fresh(MarkedUnderTop(st)) == Fresh(st)
  {
    hide Fresh, Continues;
    MarkKeepsCore(lg, zj, st, exact);
    MarkCarriesOver(lg, st, zp, exact);
    TracedCarriesOver(lg, st, MarkedUnderTop(st), zp, k, exact);
  }

  /** Originator `k` is served, so the loop may go on to the next one. */
  lemma NextOriginator(
      lg: LaneGraph, zj: nat, st: LaneState, zp: nat, k: nat, nf: nat, ff: int, exact: bool)
    requires Looping(lg, zj, st, zp, k, nf, ff, exact) && k < |lg.og[st.lane[zp]]|
    requires lg.og[st.lane[zp]][k] < |lg.og| && IsServed(lg, st, zp, lg.og[st.lane[zp]][k], exact)
    ensures Looping(lg, zj, st, zp, k + 1, nf, ff, exact)
  {
    OneMoreServed(lg, st, zp, k, exact);
    if nf > 0 {
      KeepsFirstFailed(lg, st, zp, k, ff);
    }
  }

  /** The contexts of an originator that may continue the lane are contexts here. */
  lemma OriginatorsContextsFlow(
      lg: LaneGraph, zj: nat, st: LaneState, z: nat, w: nat, exact: bool)
    requires Core(lg, zj, st, exact) && Continues(lg, z, w) && w < |lg.og| && z < |lg.og|
    ensures forall t :: t in st.contexts[w] ==> InContext(lg, z, t)
  {
    StepLeads(lg, z, w);
    LeadsIsReaches(lg, z, w);
    forall t | t in st.contexts[w]
      ensures InContext(lg, z, t)
    {
      ContextsFlow(lg, z, w, t);
    }
  }

  lemma FailureKeepsLooping(
      lg: LaneGraph, zj: nat, st: LaneState, zp: nat, k: nat, nf: nat, ff: int, exact: bool)
    requires LeadsOn(lg, zj, st, zp, k, nf, ff, exact) && (nf == 1 ==> st.lane[|st.lane| - 2] == st.lane[zp])
    ensures AfterFailure(st, lg.og[st.lane[zp]][k], nf).IsEntry(zp)
    ensures AfterFailure(st, lg.og[st.lane[zp]][k], nf).lane[zp] == st.lane[zp]
    ensures Looping(lg, zj, AfterFailure(st, lg.og[st.lane[zp]][k], nf), zp, k + 1, nf + 1,
                    if nf == 0 then lg.og[st.lane[zp]][k] else ff, exact)
    ensures if nf == 0 then Fresh(AfterFailure(st, lg.og[st.lane[zp]][k], nf)) < Fresh(st)
            else Fresh(AfterFailure(st, lg.og[st.lane[zp]][k], nf)) == Fresh(st)
  {
    hide Core, TracedSoFar, Fresh, Continues, Marks;
    if nf == 0 {
      FirstFailure(lg, zj, st, zp, k, ff, exact);
    } else if nf == 1 {
      assert st.IsEntry(|st.lane| - 2);
      MarkForSecondFailure(lg, zj, st, zp, k, ff, exact);
      LaterFailure(lg, zj, MarkedUnderTop(st), zp, k, 2, ff, exact);
    } else {
      LaterFailure(lg, zj, st, zp, k, nf, ff, exact);
    }
  }

  lemma FailureKeepsTame(lg: LaneGraph, zj: nat, st: LaneState, zp: nat, k: nat, nf: nat, ff: int)
    requires LeadsOn(lg, zj, st, zp, k, nf, ff, true) && LoopIsTame(lg, st, nf)
    ensures LoopIsTame(lg, AfterFailure(st, lg.og[st.lane[zp]][k], nf), nf + 1)
  {
    var w := lg.og[st.lane[zp]][k];
    LeadsOnHasNoDoubles(lg, zj, st, zp, k, nf, ff);
    if nf == 0 {
      PushKeepsNoDoubles(st, w);
    } else {
      if nf == 1 {
        MarkKeepsNoDoubles(st);
        WaitKeepsNoDoubles(MarkedUnderTop(st), w);
      }
      WaitKeepsNoDoubles(st, w);
    }
    NoDoublesIsTame(lg, AfterFailure(st, w, nf));
  }

  method DealWithTestsFailed(
      ghost lg: LaneGraph, ghost zj: nat, ghost zp: nat, ghost k: nat, ghost exact: bool,
      numFailed: nat, firstFailed: int, zetaPrime: nat, zeta: nat, st: LaneState)
    returns (ok: bool, numFailed': nat, firstFailed': int, st': LaneState)
    requires LeadsOn(lg, zj, st, zp, k, numFailed, firstFailed, exact)
    requires zeta == st.lane[zp] && zetaPrime == lg.og[zeta][k]
    ensures ok <==> (numFailed == 1 ==> st.lane[|st.lane| - 2] == zeta)
    ensures ok ==> numFailed' == numFailed + 1
    ensures ok ==> firstFailed' == if numFailed == 0 then zetaPrime else firstFailed
    ensures ok ==> st' == AfterFailure(st, zetaPrime, numFailed)
  {
    ok, numFailed', firstFailed', st' := true, numFailed + 1, firstFailed, st;
    if numFailed == 0 {
      firstFailed' := zetaPrime;
      st' := st.(lane := st.lane + [zetaPrime], inLane := st.inLane[zetaPrime := true]);
    } else if numFailed == 1 {
      if st.lane[|st.lane| - 2] != zeta {
        ok := false;
        return;
      }
      var top := st.lane[|st.lane| - 1];
      st' := st.(lane := st.lane[..|st.lane| - 1] + [MARKER, top], stack := st.stack + [MARKER] + [zetaPrime]);
    } else {
      st' := st.(stack := st.stack + [zetaPrime]);
    }
  }

  /** Originator `k` is the address at `loc`, on the lane already, and nothing non-null can follow it. */
  ghost predicate ClosesCycle(
      lg: LaneGraph, zj: nat, st: LaneState, zp: nat, k: nat, nf: nat, ff: int, loc: nat, tf: bool, exact: bool) {
    && Looping(lg, zj, st, zp, k, nf, ff, exact) && k < |lg.og[st.lane[zp]]| && tf == (0 < nf)
    && var w := lg.og[st.lane[zp]][k];
       && w < |lg.og| && Continues(lg, st.lane[zp], w) && lg.first[w] <= {NULL}
       && loc <= zp && st.lane[loc] == w
  }

  /** The lane changes as a cycle requires and nothing is served less. */
  lemma CycleCarriesOver(lg: LaneGraph, st: LaneState, loc: nat, zp: nat, tf: bool, exact: bool)
    requires WellFormed(lg, st) && IsCycle(lg, st, loc, zp, tf)
    ensures WellFormed(lg, Cycled(st, loc, zp, tf))
    ensures CarriesOver(lg, st, Cycled(st, loc, zp, tf), zp, exact)
    ensures Cycled(st, loc, zp, tf).IsEntry(zp) && Cycled(st, loc, zp, tf).lane[zp] == st.lane[zp]
    ensures Cycled(st, loc, zp, tf).IsEntry(loc) && Cycled(st, loc, zp, tf).lane[loc] == st.lane[loc]
    ensures Fresh(Cycled(st, loc, zp, tf)) == Fresh(st)
  {
    CycledHasTheSameEntries(lg, st, loc, zp, tf);
    CycleKeepsServed(lg, st, loc, zp, tf, exact);
  }

  /** Above `zp` the changed lane has the markers it had and those that moved, and the same top. */
  lemma {:induction false} CycleKeepsTop(
      lg: LaneGraph, st: LaneState, loc: nat, zp: nat, tf: bool, moved: seq<int>)
    requires WellFormed(lg, st) && IsCycle(lg, st, loc, zp, tf) && moved == Moved(st.lane, loc, zp, tf)
    ensures zp < |moved|
    ensures forall j :: zp < j < |moved| - (if tf then 1 else 0) ==> moved[j] == MARKER
    ensures tf ==> zp < |moved| - 1 && moved[|moved| - 1] == st.lane[|st.lane| - 1]
    ensures Marks(moved, loc) == Marks(moved, zp)
    ensures Marks(st.lane, zp) < Marks(st.lane, |st.lane|) ==> Marks(moved, zp) < Marks(moved, |moved|)
  {
    AddressesOfMoved(st.lane, loc, zp, tf);
    CycleKeepsMarks(st.lane, loc, zp, tf, moved);
  }

  lemma CycleKeepsMarks(lane: seq<int>, loc: nat, zp: nat, tf: bool, moved: seq<int>)
    requires loc <= zp < |lane| && (tf ==> zp < |lane| - 1 && 0 <= lane[|lane| - 1]) && 0 <= lane[loc]
    requires moved == Moved(lane, loc, zp, tf) && |lane| <= |moved|
    ensures Marks(moved, loc) == Marks(moved, zp)
    ensures Marks(lane, zp) < Marks(lane, |lane|) ==> Marks(moved, zp) < Marks(moved, |moved|)
  {
    hide Moved;
    MarksOfMoved(lane, loc, zp, tf, loc);
    MarksOfMoved(lane, loc, zp, tf, zp);
    MovedKeepsMarks(lane, loc, zp, tf);
    MarksGrow(lane, loc, zp);
  }

  lemma CarriesOverJoins(
      lg: LaneGraph, st: LaneState, st1: LaneState, st2: LaneState, zp: nat, exact: bool)
    requires WellFormed(lg, st) && WellFormed(lg, st1) && WellFormed(lg, st2)
    requires CarriesOver(lg, st, st1, zp, exact) && CarriesOver(lg, st1, st2, zp, exact)
    ensures CarriesOver(lg, st, st2, zp, exact)
  {
  }

  /** After the contexts of `loc` have been added, the whole invariant holds again. */
  lemma CycleThenAdd(
      lg: LaneGraph, zj: nat, st: LaneState, st1: LaneState, loc: nat, zp: nat, contexts: seq<set<int>>, exact: bool)
    requires Core(lg, zj, st, exact) && st.IsEntry(zp) && st.IsEntry(loc) && Continues(lg, st.lane[zp], st.lane[loc])
    requires st1 == st.(lane := st1.lane) && st1.IsEntry(zp) && st1.lane[zp] == st.lane[zp]
    requires CoreButFor(lg, zj, st1, st.contexts[st.lane[loc]], exact) && OnlyTopAbove(st1, zp)
    requires Added(st1, zp + 1, st.contexts[st.lane[loc]], contexts, exact)
    ensures Core(lg, zj, st1.(contexts := contexts), exact)
    ensures CarriesOver(lg, st1, st1.(contexts := contexts), zp, exact)
    ensures exact ==> contexts[st.lane[loc]] <= contexts[st.lane[zp]]
  {
    OriginatorsContextsFlow(lg, zj, st, st.lane[zp], st.lane[loc], exact);
    AddKeepsCore(lg, zj, st1, zp, st.contexts[st.lane[loc]], contexts, exact);
    assert st1.lane[..zp + 1][zp] == st1.lane[zp];
  }

  /** The originator on the cycle is lower on the lane with no marker in between. */
  lemma {:induction false} LowerOnCycleIsServed(lg: LaneGraph, st: LaneState, loc: nat, zp: nat, exact: bool)
    requires WellFormed(lg, st) && st.IsEntry(zp) && st.IsEntry(loc) && loc <= zp
    requires Marks(st.lane, loc) == Marks(st.lane, zp) && lg.first[st.lane[loc]] <= {NULL}
    requires exact ==> st.contexts[st.lane[loc]] <= st.contexts[st.lane[zp]]
    ensures IsServed(lg, st, zp, st.lane[loc], exact)
  {
  }

  lemma {:induction false} LoopingAfterCycle(
      lg: LaneGraph, zj: nat, st: LaneState, st2: LaneState, zp: nat, k: nat, nf: nat, ff: int, exact: bool)
    requires Looping(lg, zj, st, zp, k, nf, ff, exact) && k < |lg.og[st.lane[zp]]|
    requires lg.og[st.lane[zp]][k] < |lg.og|
    requires Core(lg, zj, st2, exact) && st2.complete == st.complete
    requires st2.IsEntry(zp) && st2.lane[zp] == st.lane[zp]
    requires CarriesOver(lg, st, st2, zp, exact) && IsServed(lg, st2, zp, lg.og[st.lane[zp]][k], exact)
    requires forall j :: zp < j < |st2.lane| - (if nf == 0 then 0 else 1) ==> st2.lane[j] == MARKER
    requires nf > 0 ==> zp < |st2.lane| - 1 && st2.lane[|st2.lane| - 1] == ff
    requires nf > 1 ==> Marks(st2.lane, zp) < Marks(st2.lane, |st2.lane|)
    ensures Looping(lg, zj, st2, zp, k + 1, nf, ff, exact)
  {
    TracedCarriesOver(lg, st, st2, zp, k, exact);
    NextOriginator(lg, zj, st2, zp, k, nf, ff, exact);
  }

  /** The waiting addresses have their pushers, of which the address at `zp` is one only once two of its
      originators have failed. */
  ghost predicate LoopHasPushers(lg: LaneGraph, st: LaneState, zp: nat, k: nat, nf: nat) {
    && WellFormed(lg, st) && st.IsEntry(zp) && k <= |lg.og[st.lane[zp]]|
    && (nf > 0 ==> Continues(lg, st.lane[zp], Top(st)) && Top(st) != st.lane[zp])
    && exists ps :: ArePushers(lg, st, ps, if nf <= 1 then zp else zp + 1) && PushedSoFar(lg, st, ps, zp, k)
  }

  ghost predicate LoopExtras(lg: LaneGraph, st: LaneState, zp: nat, k: nat, nf: nat, exact: bool) {
    && LoopHasPushers(lg, st, zp, k, nf) && IsForked(lg, st) && IsNoosed(lg, st, zp, k, nf)
    && (exact ==> LoopIsTame(lg, st, nf))
  }

  ghost function Top(st: LaneState): nat {
    if st.lane != [] && 0 <= st.lane[|st.lane| - 1] then st.lane[|st.lane| - 1] else 0
  }

  ghost predicate PushedSoFar(lg: LaneGraph, st: LaneState, ps: seq<int>, zp: nat, k: nat)
    requires WellFormed(lg, st) && |ps| == |st.stack| && st.IsEntry(zp) && k <= |lg.og[st.lane[zp]]|
  {
    forall s :: st.IsWaiting(s) && ps[s] == zp ==> st.stack[s] in lg.og[st.lane[zp]][..k]
  }

  lemma AddKeepsLoopPushers(lg: LaneGraph, st: LaneState, st': LaneState, zp: nat, k: nat, nf: nat)
    requires LoopHasPushers(lg, st, zp, k, nf) && WellFormed(lg, st')
    requires st'.lane == st.lane && st'.stack == st.stack
    ensures LoopHasPushers(lg, st', zp, k, nf)
  {
    hide IsPusher, Marks;
    var limit := if nf <= 1 then zp else zp + 1;
    var ps :| ArePushers(lg, st, ps, limit) && PushedSoFar(lg, st, ps, zp, k);
    assert PushedSoFar(lg, st', ps, zp, k);
    SamePushers(lg, st, st', ps, limit);
  }

  lemma NextKeepsLoopPushers(lg: LaneGraph, st: LaneState, zp: nat, k: nat, nf: nat)
    requires LoopHasPushers(lg, st, zp, k, nf) && k < |lg.og[st.lane[zp]]|
    ensures LoopHasPushers(lg, st, zp, k + 1, nf)
  {
    hide Continues, IsPusher;
    var edges := lg.og[st.lane[zp]];
    assert edges[..k + 1] == edges[..k] + [edges[k]];
    var ps :| ArePushers(lg, st, ps, if nf <= 1 then zp else zp + 1) && PushedSoFar(lg, st, ps, zp, k);
    assert PushedSoFar(lg, st, ps, zp, k + 1);
  }

  lemma AddKeepsExtras(
      lg: LaneGraph, st: LaneState, st': LaneState, zp: nat, k: nat, nf: nat, exact: bool)
    requires LoopExtras(lg, st, zp, k, nf, exact) && k < |lg.og[st.lane[zp]]| && WellFormed(lg, st')
    requires st' == st.(contexts := st'.contexts)
    ensures LoopExtras(lg, st', zp, k, nf, exact) && LoopExtras(lg, st', zp, k + 1, nf, exact)
  {
    AddKeepsLoopPushers(lg, st, st', zp, k, nf);
    NextKeepsLoopPushers(lg, st', zp, k, nf);
    SameLaneKeepsForked(lg, st, st');
    NextKeepsNoosed(lg, st, st', zp, k, nf);
    if exact {
      AddKeepsTame(lg, st, st');
    }
  }

  /** The address at `zp` has two prongs: the one on top of the lane, and the one that fails now. */
  lemma SecondFailureIsFork(
      lg: LaneGraph, zj: nat, st: LaneState, zp: nat, k: nat, ff: int, exact: bool)
    requires LeadsOn(lg, zj, st, zp, k, 1, ff, exact) && LoopHasPushers(lg, st, zp, k, 1) && IsForked(lg, st)
    ensures IsProng(lg, st.lane[zp], Top(st)) && IsProng(lg, st.lane[zp], lg.og[st.lane[zp]][k])
    ensures Top(st) != lg.og[st.lane[zp]][k] && IsFork(lg, st.lane[zp])
  {
    hide TracedSoFar, IsTwisted;
    var w := lg.og[st.lane[zp]][k];
    assert w !in st.lane && lg.base[w] == {};
  }

  lemma FailureKeepsForked(
      lg: LaneGraph, zj: nat, st: LaneState, zp: nat, k: nat, nf: nat, ff: int, exact: bool)
    requires LeadsOn(lg, zj, st, zp, k, nf, ff, exact) && (nf == 1 ==> st.lane[|st.lane| - 2] == st.lane[zp])
    requires LoopHasPushers(lg, st, zp, k, nf) && IsForked(lg, st)
    ensures IsForked(lg, AfterFailure(st, lg.og[st.lane[zp]][k], nf))
  {
    hide TracedSoFar, IsForked, LoopHasPushers;
    var w := lg.og[st.lane[zp]][k];
    var st' := AfterFailure(st, w, nf);
    if nf == 0 {
      PushKeepsForked(lg, st, st', w);
    } else if nf == 1 {
      assert st.IsEntry(|st.lane| - 2);
      SecondFailureIsFork(lg, zj, st, zp, k, ff, exact);
      MarkKeepsForked(lg, st, st', zp);
    } else {
      SameLaneKeepsForked(lg, st, st');
    }
  }

  lemma FailureKeepsNoosed(
      lg: LaneGraph, zj: nat, st: LaneState, zp: nat, k: nat, nf: nat, ff: int, exact: bool)
    requires LeadsOn(lg, zj, st, zp, k, nf, ff, exact) && IsNoosed(lg, st, zp, k, nf)
    ensures IsNoosed(lg, AfterFailure(st, lg.og[st.lane[zp]][k], nf), zp, k + 1, nf + 1)
  {
    hide TracedSoFar, IsNoosed;
    var w := lg.og[st.lane[zp]][k];
    var st' := AfterFailure(st, w, nf);
    if nf == 0 {
      FirstFailureKeepsNoosed(lg, st, st', zp, k, w);
    } else {
      LaterFailureKeepsNoosed(lg, st, st', zp, k, nf, nf + 1);
    }
  }

  /** Where the check fails, there is a snare. */
  lemma FailingCheckIsSnare(
      lg: LaneGraph, zj: nat, st: LaneState, zp: nat, k: nat, ff: int, exact: bool)
    requires LeadsOn(lg, zj, st, zp, k, 1, ff, exact) && LoopExtras(lg, st, zp, k, 1, exact)
    requires StrictlyIncreasing(lg.og[st.lane[zp]]) && st.lane[|st.lane| - 2] != st.lane[zp]
    ensures HasSnare(lg)
  {
    hide TracedSoFar, IsForked, LoopHasPushers, IsNoosed, IsProng, LoopIsTame;
    SecondFailureIsFork(lg, zj, st, zp, k, ff, exact);
    FailedCheckIsSnare(lg, st, zp, k, Top(st), lg.og[st.lane[zp]][k]);
  }

  lemma FailureKeepsExtras(
      lg: LaneGraph, zj: nat, st: LaneState, zp: nat, k: nat, nf: nat, ff: int, exact: bool)
    requires LeadsOn(lg, zj, st, zp, k, nf, ff, exact) && (nf == 1 ==> st.lane[|st.lane| - 2] == st.lane[zp])
    requires StrictlyIncreasing(lg.og[st.lane[zp]]) && LoopExtras(lg, st, zp, k, nf, exact)
    ensures LoopExtras(lg, AfterFailure(st, lg.og[st.lane[zp]][k], nf), zp, k + 1, nf + 1, exact)
  {
    FailureKeepsLoopPushers(lg, zj, st, zp, k, nf, ff, exact);
    FailureKeepsForked(lg, zj, st, zp, k, nf, ff, exact);
    FailureKeepsNoosed(lg, zj, st, zp, k, nf, ff, exact);
    if exact {
      FailureKeepsTame(lg, zj, st, zp, k, nf, ff);
    }
  }

  lemma FirstFailureKeepsLoopPushers(lg: LaneGraph, st: LaneState, zp: nat, k: nat)
    requires LoopHasPushers(lg, st, zp, k, 0) && k < |lg.og[st.lane[zp]]| && lg.og[st.lane[zp]][k] < |lg.og|
    requires Continues(lg, st.lane[zp], lg.og[st.lane[zp]][k]) && lg.og[st.lane[zp]][k] !in st.lane
    requires WellFormed(lg, PushedOnLane(st, lg.og[st.lane[zp]][k]))
    ensures LoopHasPushers(lg, PushedOnLane(st, lg.og[st.lane[zp]][k]), zp, k + 1, 1)
  {
    var w := lg.og[st.lane[zp]][k];
    var ps :| ArePushers(lg, st, ps, zp) && PushedSoFar(lg, st, ps, zp, k);
    PushKeepsPushers(lg, st, w, ps, zp);
    assert PushedSoFar(lg, PushedOnLane(st, w), ps, zp, k + 1);
  }

  lemma {:induction false} LaterFailureKeepsLoopPushers(
      lg: LaneGraph, st: LaneState, zp: nat, k: nat, nf: nat, ps: seq<int>)
    requires WellFormed(lg, st) && st.IsEntry(zp) && k < |lg.og[st.lane[zp]]| && 1 < nf
    requires ArePushers(lg, st, ps, zp + 1) && PushedSoFar(lg, st, ps, zp, k)
    requires StrictlyIncreasing(lg.og[st.lane[zp]]) && lg.og[st.lane[zp]][k] < |lg.og|
    requires Continues(lg, st.lane[zp], lg.og[st.lane[zp]][k]) && lg.og[st.lane[zp]][k] !in st.lane
    requires Marks(st.lane, zp) < Marks(st.lane, |st.lane|)
    requires zp < |st.lane| - 1 && st.IsEntry(|st.lane| - 1) && Continues(lg, st.lane[zp], Top(st))
    requires forall j :: zp < j < |st.lane| - 1 ==> st.lane[j] == MARKER
    requires Top(st) != st.lane[zp]
    requires WellFormed(lg, PushedOnStack(st, lg.og[st.lane[zp]][k]))
    ensures LoopHasPushers(lg, PushedOnStack(st, lg.og[st.lane[zp]][k]), zp, k + 1, nf + 1)
  {
    hide IsPusher, HasOther;
    var edges := lg.og[st.lane[zp]];
    assert forall j :: 0 <= j < k ==> edges[j] < edges[k];
    WaitHasPusher(lg, st, edges[k], zp);
    WaitKeepsPushers(lg, st, edges[k], ps, zp);
    assert edges[..k + 1] == edges[..k] + [edges[k]];
    assert PushedSoFar(lg, PushedOnStack(st, edges[k]), ps + [zp], zp, k + 1);
  }

  lemma {:induction false} LaterFailureFacts(
      lg: LaneGraph, zj: nat, st: LaneState, zp: nat, k: nat, nf: nat, ff: int, exact: bool)
    requires 1 < nf && LeadsOn(lg, zj, st, zp, k, nf, ff, exact)
    ensures lg.og[st.lane[zp]][k] !in st.lane
    ensures Marks(st.lane, zp) < Marks(st.lane, |st.lane|)
    ensures zp < |st.lane| - 1 && st.IsEntry(|st.lane| - 1)
    ensures forall j :: zp < j < |st.lane| - 1 ==> st.lane[j] == MARKER
    ensures WellFormed(lg, PushedOnStack(st, lg.og[st.lane[zp]][k]))
  {
    WaitKeepsServed(lg, st, lg.og[st.lane[zp]][k], exact);
  }

  lemma MarkKeepsLoopPushers(lg: LaneGraph, st: LaneState, st1: LaneState, zp: nat, k: nat)
    requires LoopHasPushers(lg, st, zp, k, 1) && |st.lane| - 2 == zp && st.IsEntry(|st.lane| - 1)
    requires st1 == MarkedUnderTop(st) && WellFormed(lg, st1) && st1.IsEntry(zp) && st1.lane[zp] == st.lane[zp]
    ensures exists ps :: ArePushers(lg, st1, ps, zp + 1) && PushedSoFar(lg, st1, ps, zp, k)
  {
    hide IsPusher;
    var ps :| ArePushers(lg, st, ps, zp) && PushedSoFar(lg, st, ps, zp, k);
    MarkKeepsPushers(lg, st, ps, zp);
    assert PushedSoFar(lg, st1, ps + [-1], zp, k);
    assert ArePushers(lg, st1, ps + [-1], zp + 1);
  }

  lemma SecondFailureKeepsLoopPushers(
      lg: LaneGraph, zj: nat, st: LaneState, zp: nat, k: nat, ff: int, exact: bool)
    requires LeadsOn(lg, zj, st, zp, k, 1, ff, exact) && |st.lane| - 2 == zp && LoopHasPushers(lg, st, zp, k, 1)
    requires StrictlyIncreasing(lg.og[st.lane[zp]])
    ensures LoopHasPushers(lg, AfterFailure(st, lg.og[st.lane[zp]][k], 1), zp, k + 1, 2)
  {
    hide PushedSoFar, IsPusher, IsHandled, IsServed, Leads, Continues, StrictlyIncreasing;
    var st1 := MarkedUnderTop(st);
    MarkForSecondFailure(lg, zj, st, zp, k, ff, exact);
    LaterFailureFacts(lg, zj, st1, zp, k, 2, ff, exact);
    MarkKeepsLoopPushers(lg, st, st1, zp, k);
    var ps :| ArePushers(lg, st1, ps, zp + 1) && PushedSoFar(lg, st1, ps, zp, k);
    LaterFailureKeepsLoopPushers(lg, st1, zp, k, 2, ps);
  }

  lemma ThirdFailureKeepsLoopPushers(
      lg: LaneGraph, zj: nat, st: LaneState, zp: nat, k: nat, nf: nat, ff: int, exact: bool)
    requires 1 < nf && LeadsOn(lg, zj, st, zp, k, nf, ff, exact) && LoopHasPushers(lg, st, zp, k, nf)
    requires StrictlyIncreasing(lg.og[st.lane[zp]])
    ensures LoopHasPushers(lg, PushedOnStack(st, lg.og[st.lane[zp]][k]), zp, k + 1, nf + 1)
  {
    LaterFailureFacts(lg, zj, st, zp, k, nf, ff, exact);
    var ps :| ArePushers(lg, st, ps, zp + 1) && PushedSoFar(lg, st, ps, zp, k);
    LaterFailureKeepsLoopPushers(lg, st, zp, k, nf, ps);
  }

  lemma FailureKeepsLoopPushers(
      lg: LaneGraph, zj: nat, st: LaneState, zp: nat, k: nat, nf: nat, ff: int, exact: bool)
    requires LeadsOn(lg, zj, st, zp, k, nf, ff, exact) && (nf == 1 ==> st.lane[|st.lane| - 2] == st.lane[zp])
    requires StrictlyIncreasing(lg.og[st.lane[zp]]) && LoopHasPushers(lg, st, zp, k, nf)
    ensures LoopHasPushers(lg, AfterFailure(st, lg.og[st.lane[zp]][k], nf), zp, k + 1, nf + 1)
  {
    if nf == 0 {
      PushKeepsServed(lg, st, lg.og[st.lane[zp]][k], exact);
      FirstFailureKeepsLoopPushers(lg, st, zp, k);
    } else if nf == 1 {
      assert st.IsEntry(|st.lane| - 2);
      SecondFailureKeepsLoopPushers(lg, zj, st, zp, k, ff, exact);
    } else {
      ThirdFailureKeepsLoopPushers(lg, zj, st, zp, k, nf, ff, exact);
    }
  }

  lemma SamePushedSoFar(lg: LaneGraph, st: LaneState, st': LaneState, ps: seq<int>, zp: nat, k: nat)
    requires WellFormed(lg, st) && |ps| == |st.stack| && st.IsEntry(zp) && k <= |lg.og[st.lane[zp]]|
    requires PushedSoFar(lg, st, ps, zp, k) && WellFormed(lg, st') && st'.stack == st.stack
    requires st'.IsEntry(zp) && st'.lane[zp] == st.lane[zp]
    ensures PushedSoFar(lg, st', ps, zp, k)
  {
  }

  lemma CycleKeepsLoopPushers(
      lg: LaneGraph, zj: nat, st: LaneState, st1: LaneState, zp: nat, k: nat, nf: nat, loc: nat, tf: bool, exact: bool)
    requires Core(lg, zj, st, exact) && IsCycle(lg, st, loc, zp, tf) && tf == (0 < nf)
    requires LoopHasPushers(lg, st, zp, k, nf) && st1 == Cycled(st, loc, zp, tf)
    ensures LoopHasPushers(lg, st1, zp, k, nf)
  {
    hide Core, Marks, Continues, Moved, PushedSoFar, IsPusher;
    CycledHasTheSameEntries(lg, st, loc, zp, tf);
    CycleKeepsTop(lg, st, loc, zp, tf, st1.lane);
    var limit := if nf <= 1 then zp else zp + 1;
    var ps :| ArePushers(lg, st, ps, limit) && PushedSoFar(lg, st, ps, zp, k);
    CycleKeepsPushers(lg, zj, st, loc, zp, tf, exact, ps, limit);
    SamePushedSoFar(lg, st, st1, ps, zp, k);
  }

  lemma CycleThenNextKeepsLoopPushers(
      lg: LaneGraph, zj: nat, st: LaneState, st1: LaneState, zp: nat, k: nat, nf: nat, loc: nat, tf: bool,
      contexts: seq<set<int>>, exact: bool)
    requires Core(lg, zj, st, exact) && IsCycle(lg, st, loc, zp, tf) && tf == (0 < nf)
    requires LoopHasPushers(lg, st, zp, k, nf) && k < |lg.og[st.lane[zp]]|
    requires st1 == Cycled(st, loc, zp, tf) && WellFormed(lg, st1.(contexts := contexts))
    requires st1.IsEntry(zp) && st1.lane[zp] == st.lane[zp]
    ensures LoopHasPushers(lg, st1.(contexts := contexts), zp, k + 1, nf)
  {
    CycleKeepsLoopPushers(lg, zj, st, st1, zp, k, nf, loc, tf, exact);
    AddKeepsLoopPushers(lg, st1, st1.(contexts := contexts), zp, k, nf);
    NextKeepsLoopPushers(lg, st1.(contexts := contexts), zp, k, nf);
  }

  /** A lane from some address comes back to it over an originator that both something and nothing can
      follow. */
  ghost predicate IsAmbiguous(lg: LaneGraph)
    requires lg.Valid()
  {
    exists w: nat :: w < |lg.og| && Leads(lg, w, w) && NULL in lg.first[w] && lg.first[w] != {NULL}
  }

  /** The step from originator `k` to the next one. */
  ghost predicate IsOriginatorStep(
      lg: LaneGraph, zj: nat, exact: bool, zp: nat, k: nat, st: LaneState, nf: nat,
      outcome: Outcome, st': LaneState, nf': nat, ff': int)
  {
    && lg.Valid() && st.IsEntry(zp)
    && (outcome.Done? ==>
          && st'.IsEntry(zp) && st'.lane[zp] == st.lane[zp]
          && Looping(lg, zj, st', zp, k + 1, nf', ff', exact) && st'.complete == st.complete
          && (nf' == nf || nf' == nf + 1)
          && (nf' == 0 ==> st'.stack == st.stack)
          && (if nf == 0 && nf' == 1 then Fresh(st') < Fresh(st) else Fresh(st') == Fresh(st))
          && LoopExtras(lg, st', zp, k + 1, nf', exact))
    && (outcome.Ambiguous? ==> IsAmbiguous(lg))
    && (outcome.CheckFailed? ==> HasSnare(lg))
  }

  /** Moving the markers and then adding the contexts of `loc` keeps the invariant and serves `loc`. */
  lemma CycleIsServed(
      lg: LaneGraph, zj: nat, st: LaneState, st1: LaneState, loc: nat, zp: nat, tf: bool,
      contexts: seq<set<int>>, exact: bool)
    requires Core(lg, zj, st, exact) && IsCycle(lg, st, loc, zp, tf) && lg.first[st.lane[loc]] <= {NULL}
    requires st1 == Cycled(st, loc, zp, tf) && zp < |st1.lane|
    requires Added(st1, zp + 1, st.contexts[st.lane[loc]], contexts, exact)
    ensures Core(lg, zj, st1.(contexts := contexts), exact)
    ensures st1.IsEntry(zp) && st1.lane[zp] == st.lane[zp]
    ensures CarriesOver(lg, st, st1.(contexts := contexts), zp, exact)
    ensures IsServed(lg, st1.(contexts := contexts), zp, st.lane[loc], exact)
    ensures Fresh(st1) == Fresh(st)
  {
    var st2 := st1.(contexts := contexts);
    CycleCarriesOver(lg, st, loc, zp, tf, exact);
    CycleKeepsTop(lg, st, loc, zp, tf, st1.lane);
    CycleKeepsCore(lg, zj, st, loc, zp, tf, exact);
    CycleThenAdd(lg, zj, st, st1, loc, zp, contexts, exact);
    CarriesOverJoins(lg, st, st1, st2, zp, exact);
    LowerOnCycleIsServed(lg, st2, loc, zp, exact);
  }

  lemma {:induction false} ClosingIsACycle(
      lg: LaneGraph, zj: nat, st: LaneState, zp: nat, k: nat, nf: nat, ff: int, loc: nat, tf: bool, exact: bool)
    requires ClosesCycle(lg, zj, st, zp, k, nf, ff, loc, tf, exact)
    ensures Core(lg, zj, st, exact) && IsCycle(lg, st, loc, zp, tf) && lg.first[st.lane[loc]] <= {NULL}
    ensures tf ==> st.lane[|st.lane| - 1] == ff
    ensures nf > 1 ==> Marks(st.lane, zp) < Marks(st.lane, |st.lane|)
  {
  }

  /** What `LoopingAfterCycle` asks of the changed lane. */
  lemma {:induction false} LaneAfterCycle(
      lg: LaneGraph, st: LaneState, lane: seq<int>, zp: nat, nf: nat, ff: int, loc: nat, tf: bool)
    requires WellFormed(lg, st) && IsCycle(lg, st, loc, zp, tf) && tf == (0 < nf)
    requires tf ==> st.lane[|st.lane| - 1] == ff
    requires nf > 1 ==> Marks(st.lane, zp) < Marks(st.lane, |st.lane|)
    requires lane == Moved(st.lane, loc, zp, tf)
    ensures forall j :: zp < j < |lane| - (if nf == 0 then 0 else 1) ==> lane[j] == MARKER
    ensures zp < |lane| && (nf > 0 ==> zp < |lane| - 1 && lane[|lane| - 1] == ff)
    ensures nf > 1 ==> Marks(lane, zp) < Marks(lane, |lane|)
  {
    CycleKeepsTop(lg, st, loc, zp, tf, lane);
  }

  lemma CycleKeepsLooping(
      lg: LaneGraph, zj: nat, st: LaneState, st1: LaneState, zp: nat, k: nat, nf: nat, ff: int, loc: nat, tf: bool,
      contexts: seq<set<int>>, exact: bool)
    requires ClosesCycle(lg, zj, st, zp, k, nf, ff, loc, tf, exact)
    requires st1 == Cycled(st, loc, zp, tf) && zp < |st1.lane|
    requires Added(st1, zp + 1, st.contexts[st.lane[loc]], contexts, exact)
    ensures Looping(lg, zj, st1.(contexts := contexts), zp, k + 1, nf, ff, exact)
    ensures st1.(contexts := contexts).IsEntry(zp) && st1.lane[zp] == st.lane[zp]
    ensures Fresh(st1.(contexts := contexts)) == Fresh(st)
  {
    ClosingIsACycle(lg, zj, st, zp, k, nf, ff, loc, tf, exact);
    LaneAfterCycle(lg, st, st1.lane, zp, nf, ff, loc, tf);
    CycleIsServed(lg, zj, st, st1, loc, zp, tf, contexts, exact);
    var st2 := st1.(contexts := contexts);
    LoopingAfterCycle(lg, zj, st, st2, zp, k, nf, ff, exact);
    assert Fresh(st2) == Fresh(st1);
  }

  lemma CycleKeepsSnares(
      lg: LaneGraph, zj: nat, st: LaneState, st1: LaneState, zp: nat, k: nat, nf: nat, loc: nat, tf: bool,
      contexts: seq<set<int>>, exact: bool)
    requires Core(lg, zj, st, exact) && IsCycle(lg, st, loc, zp, tf) && tf == (0 < nf)
    requires IsForked(lg, st) && IsNoosed(lg, st, zp, k, nf) && k < |lg.og[st.lane[zp]]|
    requires st.lane[loc] == lg.og[st.lane[zp]][k] && lg.first[st.lane[loc]] <= {NULL}
    requires st1 == Cycled(st, loc, zp, tf)
    ensures IsForked(lg, st1.(contexts := contexts)) && IsNoosed(lg, st1.(contexts := contexts), zp, k + 1, nf)
  {
    hide IsForked, IsNoosed, Moved;
    CycleKeepsForked(lg, zj, st, loc, zp, tf, exact);
    SameLaneKeepsForked(lg, st1, st1.(contexts := contexts));
    CycleKeepsNoosed(lg, zj, st, loc, zp, k, nf, exact, st1.(contexts := contexts));
  }

  lemma CycleKeepsExtras(
      lg: LaneGraph, zj: nat, st: LaneState, st1: LaneState, zp: nat, k: nat, nf: nat, loc: nat, tf: bool,
      contexts: seq<set<int>>, exact: bool)
    requires Core(lg, zj, st, exact) && IsCycle(lg, st, loc, zp, tf) && tf == (0 < nf)
    requires LoopExtras(lg, st, zp, k, nf, exact) && k < |lg.og[st.lane[zp]]|
    requires st.lane[loc] == lg.og[st.lane[zp]][k] && lg.first[st.lane[loc]] <= {NULL}
    requires st1 == Cycled(st, loc, zp, tf) && WellFormed(lg, st1.(contexts := contexts))
    requires st1.IsEntry(zp) && st1.lane[zp] == st.lane[zp]
    ensures LoopExtras(lg, st1.(contexts := contexts), zp, k + 1, nf, exact)
  {
    CycleThenNextKeepsLoopPushers(lg, zj, st, st1, zp, k, nf, loc, tf, contexts, exact);
    CycleKeepsSnares(lg, zj, st, st1, zp, k, nf, loc, tf, contexts, exact);
    if exact {
      LoopPushersArePushers(lg, st, zp, k, nf, zp + 1);
      CycleKeepsTame(lg, zj, st, loc, zp, tf, true, zp + 1);
      AddKeepsTame(lg, st1, st1.(contexts := contexts));
    }
  }

  /** Adding what follows at an originator, and its contexts if it may continue the lane and is
      complete, serves it. */
  lemma AddServesOriginator(
      lg: LaneGraph, zj: nat, st: LaneState, zp: nat, k: nat, nf: nat, ff: int, s: set<int>,
      contexts: seq<set<int>>, exact: bool)
    requires Looping(lg, zj, st, zp, k, nf, ff, exact) && k < |lg.og[st.lane[zp]]|
    requires forall t :: t in s ==> InContext(lg, st.lane[zp], t)
    requires Added(st, zp + 1, s, contexts, exact)
    requires lg.og[st.lane[zp]][k] < |lg.og| && lg.first[lg.og[st.lane[zp]][k]] - {NULL} <= s
    requires Vanishes(lg.first[lg.og[st.lane[zp]][k]]) ==>
      st.complete[lg.og[st.lane[zp]][k]] && st.contexts[lg.og[st.lane[zp]][k]] <= s
    ensures Looping(lg, zj, st.(contexts := contexts), zp, k + 1, nf, ff, exact)
  {
    AddKeepsLooping(lg, zj, st, zp, k, nf, ff, s, contexts, exact);
    NextOriginator(lg, zj, st.(contexts := contexts), zp, k, nf, ff, exact);
  }

  /** An originator flagged as on the lane is there, at `zp` or below. */
  lemma FlaggedIsBelow(
      lg: LaneGraph, zj: nat, st: LaneState, zp: nat, k: nat, nf: nat, ff: int, exact: bool) returns (loc: nat)
    requires Looping(lg, zj, st, zp, k, nf, ff, exact) && k < |lg.og[st.lane[zp]]|
    requires StrictlyIncreasing(lg.og[st.lane[zp]])
    requires lg.og[st.lane[zp]][k] < |lg.og| && st.inLane[lg.og[st.lane[zp]][k]]
    ensures loc <= zp && st.lane[loc] == lg.og[st.lane[zp]][k]
  {
    var edges := lg.og[st.lane[zp]];
    assert forall j :: 0 <= j < k ==> edges[j] < edges[k];
    assert edges[k] !in edges[..k];
    var i :| 0 <= i < |st.lane| && st.lane[i] == edges[k];
    loc := i;
  }

  lemma LoopingCycleLeadsBack(
      lg: LaneGraph, zj: nat, st: LaneState, zp: nat, loc: nat, exact: bool)
    requires Core(lg, zj, st, exact) && loc <= zp && st.IsEntry(zp) && st.IsEntry(loc)
    requires Continues(lg, st.lane[zp], st.lane[loc])
    ensures Leads(lg, st.lane[loc], st.lane[loc])
  {
    if loc == zp {
      StepLeads(lg, st.lane[zp], st.lane[loc]);
    } else {
      LeadsFurther(lg, st.lane[loc], st.lane[zp], st.lane[loc]);
    }
  }

  predicate HasNonNullTerminalDescendant(firstSet: set<int>) {
    firstSet - {NULL} != {}
  }

  lemma FirstsAreContexts(lg: LaneGraph, z: nat, w: nat)
    requires lg.Valid() && HasEdge(lg.og, z, w)
    ensures forall t :: t in lg.first[w] - {NULL} ==> InContext(lg, z, t)
  {
    forall t | t in lg.first[w] - {NULL}
      ensures InContext(lg, z, t)
    {
      FirstIsContext(lg, z, w, t);
    }
  }

  /** The method has computed what the function says. */
  ghost predicate Agrees(p: Progress, outcome: Outcome, st: LaneState, nf: nat, ff: int) {
    p.outcome == outcome && (outcome.Done? ==> p == Progress(Done, st, nf, ff))
  }

  /** The branch in which the lane goes on at the originator, now or later. */
  method LeadOn(
      ghost lg: LaneGraph, ghost zj: nat, ghost exact: bool, st: LaneState, zp: nat, ghost k: nat,
      numFailed: nat, firstFailed: int, zetaPrime: nat)
    returns (outcome: Outcome, st': LaneState, numFailed': nat, firstFailed': int)
    requires LeadsOn(lg, zj, st, zp, k, numFailed, firstFailed, exact) && zetaPrime == lg.og[st.lane[zp]][k]
    requires StrictlyIncreasing(lg.og[st.lane[zp]]) && LoopExtras(lg, st, zp, k, numFailed, exact)
    requires Fits(lg, st)
    ensures IsOriginatorStep(lg, zj, exact, zp, k, st, numFailed, outcome, st', numFailed', firstFailed')
    ensures outcome != Ambiguous
    ensures Agrees(Failing(lg, st, zp, zetaPrime, numFailed, firstFailed), outcome, st', numFailed', firstFailed')
  {
    hide Core, TracedSoFar, LoopExtras;
    var ok;
    ok, numFailed', firstFailed', st' :=
      DealWithTestsFailed(lg, zj, zp, k, exact, numFailed, firstFailed, zetaPrime, st.lane[zp], st);
    outcome := if ok then Done else CheckFailed;
    if !ok {
      FailingCheckIsSnare(lg, zj, st, zp, k, firstFailed, exact);
    } else {
      FailureKeepsLooping(lg, zj, st, zp, k, numFailed, firstFailed, exact);
      FailureKeepsExtras(lg, zj, st, zp, k, numFailed, firstFailed, exact);
    }
  }

  lemma CycleIsUnblocked(
      lg: LaneGraph, zj: nat, st: LaneState, st1: LaneState, zp: nat, k: nat, nf: nat, ff: int, loc: nat, exact: bool)
    requires ClosesCycle(lg, zj, st, zp, k, nf, ff, loc, 0 < nf, exact) && LoopExtras(lg, st, zp, k, nf, exact)
    requires st1 == Cycled(st, loc, zp, 0 < nf)
    ensures exact ==> IsUnblocked(st1, zp, st.contexts[st.lane[loc]])
  {
    hide Marks, Moved, Core, Continues;
    ClosingIsACycle(lg, zj, st, zp, k, nf, ff, loc, 0 < nf, exact);
    CycledHasTheSameEntries(lg, st, loc, zp, 0 < nf);
    if exact {
      OriginatorIsUnblocked(lg, zj, st, zp, k, nf, ff, st.contexts[st.lane[loc]]);
      if forall i, j :: j <= zp ==> !AreTwice(st, i, j) {
        forall i, j | j <= zp
          ensures !AreTwice(st1, i, j)
        {
          assert !AreTwice(st, i, j);
        }
      }
    }
  }

  /** Once the lane has changed, contexts can be added down it. */
  lemma CycleMayAdd(
      lg: LaneGraph, zj: nat, st: LaneState, st1: LaneState, zp: nat, k: nat, nf: nat, ff: int, loc: nat, exact: bool)
    requires ClosesCycle(lg, zj, st, zp, k, nf, ff, loc, 0 < nf, exact) && LoopExtras(lg, st, zp, k, nf, exact)
    requires st1 == st.(lane := Moved(st.lane, loc, zp, 0 < nf))
    ensures st1 == Cycled(st, loc, zp, 0 < nf)
    ensures WellFormed(lg, st1) && zp < |st1.lane| && LaneIsNested(lg, st1, exact)
    ensures exact ==> IsUnblocked(st1, zp, st.contexts[st.lane[loc]])
  {
    hide Moved, LoopExtras;
    ClosingIsACycle(lg, zj, st, zp, k, nf, ff, loc, 0 < nf, exact);
    CycleCarriesOver(lg, st, loc, zp, 0 < nf, exact);
    CycleKeepsCore(lg, zj, st, loc, zp, 0 < nf, exact);
    CycleIsUnblocked(lg, zj, st, st1, zp, k, nf, ff, loc, exact);
  }

  /** With the contexts added, the originator is dealt with. */
  lemma {:induction false} CycleIsAStep(
      lg: LaneGraph, zj: nat, st: LaneState, st1: LaneState, zp: nat, k: nat, nf: nat, ff: int, loc: nat,
      contexts: seq<set<int>>, exact: bool)
    requires ClosesCycle(lg, zj, st, zp, k, nf, ff, loc, 0 < nf, exact) && LoopExtras(lg, st, zp, k, nf, exact)
    requires Fits(lg, st) && loc == PlaceOf(st.lane, st.lane[loc], 0)
    requires st1 == Cycled(st, loc, zp, 0 < nf) && WellFormed(lg, st1) && zp < |st1.lane|
    requires contexts == AddedDown(st1.contexts, st1.lane, zp, st.contexts[st.lane[loc]])
    requires Added(st1, zp + 1, st.contexts[st.lane[loc]], contexts, exact)
    ensures IsOriginatorStep(lg, zj, exact, zp, k, st, nf, Done, st1.(contexts := contexts), nf, ff)
    ensures st1.(contexts := contexts) == Closing(lg, st, zp, st.lane[loc], nf)
  {
    hide LoopExtras, Closing, Moved;
    ClosingIsACycle(lg, zj, st, zp, k, nf, ff, loc, 0 < nf, exact);
    CycleKeepsLooping(lg, zj, st, st1, zp, k, nf, ff, loc, 0 < nf, contexts, exact);
    CycleKeepsExtras(lg, zj, st, st1, zp, k, nf, loc, 0 < nf, contexts, exact);
    ClosingIs(lg, st, st1, zp, st.lane[loc], nf, loc, contexts);
  }

  /** The branch in which the originator is on the lane already. */
  method CloseCycle(
      ghost lg: LaneGraph, ghost zj: nat, ghost exact: bool, st: LaneState, zp: nat, ghost k: nat,
      numFailed: nat, ghost firstFailed: int, zetaPrime: nat)
    returns (st': LaneState)
    requires Looping(lg, zj, st, zp, k, numFailed, firstFailed, exact) && k < |lg.og[st.lane[zp]]|
    requires StrictlyIncreasing(lg.og[st.lane[zp]]) && zetaPrime == lg.og[st.lane[zp]][k] < |lg.og|
    requires st.inLane[zetaPrime] && Continues(lg, st.lane[zp], zetaPrime) && lg.first[zetaPrime] <= {NULL}
    requires LoopExtras(lg, st, zp, k, numFailed, exact)
    requires Fits(lg, st)
    ensures IsOriginatorStep(lg, zj, exact, zp, k, st, numFailed, Done, st', numFailed, firstFailed)
    ensures st' == Closing(lg, st, zp, zetaPrime, numFailed)
  {
    hide LoopExtras, IsOriginatorStep, Closing, TracedSoFar, IsUnblocked;
    ghost var at := FlaggedIsBelow(lg, zj, st, zp, k, numFailed, firstFailed, exact);
    var lane, loc := MoveMarkers(st.lane, zetaPrime, zp, 0 < numFailed);
    var st1 := st.(lane := lane);
    CycleMayAdd(lg, zj, st, st1, zp, k, numFailed, firstFailed, loc, exact);
    var contexts := ContextAddingRoutine(lg, st1, zp, st.contexts[zetaPrime], exact);
    st' := st1.(contexts := contexts);
    CycleIsAStep(lg, zj, st, st1, zp, k, numFailed, firstFailed, loc, contexts, exact);
  }

  lemma {:induction false} ClosingIs(
      lg: LaneGraph, st: LaneState, st1: LaneState, zp: nat, w: nat, nf: nat, loc: nat, contexts: seq<set<int>>)
    requires Fits(lg, st) && w < |lg.og| && loc == PlaceOf(st.lane, w, 0) <= zp < |st.lane|
    requires 0 < nf ==> zp < |st.lane| - 1
    requires st1 == Cycled(st, loc, zp, 0 < nf) && WellFormed(lg, st1) && zp < |st1.lane|
    requires contexts == AddedDown(st1.contexts, st1.lane, zp, st.contexts[w])
    ensures st1.(contexts := contexts) == Closing(lg, st, zp, w, nf)
  {
    WellFormedFits(lg, st1);
  }

  lemma LoopingHas(
      lg: LaneGraph, zj: nat, st: LaneState, zp: nat, k: nat, nf: nat, ff: int, exact: bool)
    requires Looping(lg, zj, st, zp, k, nf, ff, exact)
    ensures WellFormed(lg, st) && LaneIsNested(lg, st, exact) && Core(lg, zj, st, exact)
    ensures st.IsEntry(zp) && zp < |st.lane| && st.lane[zp] < |lg.og|
  {
  }

  lemma LoopExtrasHave(lg: LaneGraph, st: LaneState, zp: nat, k: nat, nf: nat, exact: bool)
    requires LoopExtras(lg, st, zp, k, nf, exact)
    ensures lg.Valid() && (exact ==> LoopIsTame(lg, st, nf))
  {
  }

  lemma AddingIsStep(
      lg: LaneGraph, zj: nat, exact: bool, zp: nat, k: nat, st: LaneState, nf: nat, ff: int, st': LaneState)
    requires lg.Valid() && st.IsEntry(zp) && st' == st.(contexts := st'.contexts)
    requires Looping(lg, zj, st', zp, k + 1, nf, ff, exact) && LoopExtras(lg, st', zp, k + 1, nf, exact)
    ensures IsOriginatorStep(lg, zj, exact, zp, k, st, nf, Done, st', nf, ff)
  {
    hide Looping, LoopExtras;
  }

  /** The branches in which contexts are added and the lane does not go on. */
  method AddContexts(
      ghost lg: LaneGraph, ghost zj: nat, ghost exact: bool, st: LaneState, zp: nat, ghost k: nat,
      ghost numFailed: nat, ghost firstFailed: int, generated: set<int>)
    returns (st': LaneState)
    requires Looping(lg, zj, st, zp, k, numFailed, firstFailed, exact) && k < |lg.og[st.lane[zp]]|
    requires LoopExtras(lg, st, zp, k, numFailed, exact)
    requires forall t :: t in generated ==> InContext(lg, st.lane[zp], t)
    requires lg.og[st.lane[zp]][k] < |lg.og| && lg.first[lg.og[st.lane[zp]][k]] - {NULL} <= generated
    requires Vanishes(lg.first[lg.og[st.lane[zp]][k]]) ==>
      st.complete[lg.og[st.lane[zp]][k]] && st.contexts[lg.og[st.lane[zp]][k]] <= generated
    requires var w := lg.og[st.lane[zp]][k];
      generated <= (lg.first[w] - {NULL}) + if Vanishes(lg.first[w]) then st.contexts[w] else {}
    requires Fits(lg, st)
    ensures IsOriginatorStep(lg, zj, exact, zp, k, st, numFailed, Done, st', numFailed, firstFailed)
    ensures st' == Adding(lg, st, zp, generated)
  {
    hide Looping, LoopExtras, IsOriginatorStep, Core;
    LoopingHas(lg, zj, st, zp, k, numFailed, firstFailed, exact);
    LoopExtrasHave(lg, st, zp, k, numFailed, exact);
    if exact {
      OriginatorIsUnblocked(lg, zj, st, zp, k, numFailed, firstFailed, generated);
    }
    var contexts := ContextAddingRoutine(lg, st, zp, generated, exact);
    AddServesOriginator(lg, zj, st, zp, k, numFailed, firstFailed, generated, contexts, exact);
    st' := st.(contexts := contexts);
    AddKeepsExtras(lg, st, st', zp, k, numFailed, exact);
    AddingIsStep(lg, zj, exact, zp, k, st, numFailed, firstFailed, st');
  }

  /** Adds what follows at the originator; then the lane goes on there. */
  method AddAndLeadOn(
      ghost lg: LaneGraph, ghost zj: nat, ghost exact: bool, generated: set<int>, zetaPrime: nat,
      st: LaneState, zp: nat, ghost k: nat, numFailed: nat, firstFailed: int)
    returns (outcome: Outcome, st': LaneState, numFailed': nat, firstFailed': int)
    requires Looping(lg, zj, st, zp, k, numFailed, firstFailed, exact) && k < |lg.og[st.lane[zp]]|
    requires StrictlyIncreasing(lg.og[st.lane[zp]]) && zetaPrime == lg.og[st.lane[zp]][k] < |lg.og|
    requires Continues(lg, st.lane[zp], zetaPrime) && !st.complete[zetaPrime] && !st.inLane[zetaPrime]
    requires generated == lg.first[zetaPrime] - {NULL} && LoopExtras(lg, st, zp, k, numFailed, exact)
    requires Fits(lg, st) && forall t :: t in generated ==> InContext(lg, st.lane[zp], t)
    ensures IsOriginatorStep(lg, zj, exact, zp, k, st, numFailed, outcome, st', numFailed', firstFailed')
    ensures outcome != Ambiguous
    ensures Agrees(Failing(lg, Adding(lg, st, zp, generated), zp, zetaPrime, numFailed, firstFailed),
      outcome, st', numFailed', firstFailed')
  {
    hide Looping, LoopExtras, IsOriginatorStep, Core, Failing;
    LoopingHas(lg, zj, st, zp, k, numFailed, firstFailed, exact);
    LoopExtrasHave(lg, st, zp, k, numFailed, exact);
    if exact {
      OriginatorIsUnblocked(lg, zj, st, zp, k, numFailed, firstFailed, generated);
    }
    var contexts := ContextAddingRoutine(lg, st, zp, generated, exact);
    AddKeepsLooping(lg, zj, st, zp, k, numFailed, firstFailed, generated, contexts, exact);
    FreshHasNothing(lg, zj, st, zetaPrime, exact);
    var st1 := st.(contexts := contexts);
    AddKeepsExtras(lg, st, st1, zp, k, numFailed, exact);
    outcome, st', numFailed', firstFailed' := LeadOn(
      lg, zj, exact, st1, zp, k, numFailed, firstFailed, zetaPrime);
    StepFromAdded(lg, zj, exact, zp, k, st, st1, numFailed, outcome, st', numFailed', firstFailed');
  }

  /** Adding contexts first does not make another step of it. */
  lemma StepFromAdded(
      lg: LaneGraph, zj: nat, exact: bool, zp: nat, k: nat, st: LaneState, st1: LaneState, nf: nat,
      outcome: Outcome, st': LaneState, nf': nat, ff': int)
    requires IsOriginatorStep(lg, zj, exact, zp, k, st1, nf, outcome, st', nf', ff')
    requires st1 == st.(contexts := st1.contexts)
    ensures IsOriginatorStep(lg, zj, exact, zp, k, st, nf, outcome, st', nf', ff')
  {
    hide Looping, LoopExtras;
  }

  /** Test A succeeded: something non-null can follow the originator. */
  method TraceNonNull(
      ghost lg: LaneGraph, ghost zj: nat, ghost exact: bool, gammaFirst: set<int>, zetaPrime: nat,
      st: LaneState, zp: nat, ghost k: nat, numFailed: nat, firstFailed: int)
    returns (outcome: Outcome, st': LaneState, numFailed': nat, firstFailed': int)
    requires Looping(lg, zj, st, zp, k, numFailed, firstFailed, exact) && k < |lg.og[st.lane[zp]]|
    requires StrictlyIncreasing(lg.og[st.lane[zp]]) && zetaPrime == lg.og[st.lane[zp]][k] < |lg.og|
    requires gammaFirst == lg.first[zetaPrime] && HasNonNullTerminalDescendant(gammaFirst)
    requires LoopExtras(lg, st, zp, k, numFailed, exact) && Fits(lg, st)
    ensures IsOriginatorStep(lg, zj, exact, zp, k, st, numFailed, outcome, st', numFailed', firstFailed')
    ensures Agrees(Stepped(lg, st, zp, zetaPrime, numFailed, firstFailed), outcome, st', numFailed', firstFailed')
  {
    outcome, st', numFailed', firstFailed' := Done, st, numFailed, firstFailed;
    var generated := gammaFirst - {NULL};
    assert HasEdge(lg.og, st.lane[zp], zetaPrime);
    FirstsAreContexts(lg, st.lane[zp], zetaPrime);
    if NULL in gammaFirst {
      if st.complete[zetaPrime] {
        OriginatorsContextsFlow(lg, zj, st, st.lane[zp], zetaPrime, exact);
        generated := generated + st.contexts[zetaPrime];
        st' := AddContexts(lg, zj, exact, st, zp, k, numFailed, firstFailed, generated);
      } else if !st.inLane[zetaPrime] {
        outcome, st', numFailed', firstFailed' := AddAndLeadOn(
          lg, zj, exact, generated, zetaPrime, st, zp, k, numFailed, firstFailed);
      } else {
        var loc := FlaggedIsBelow(lg, zj, st, zp, k, numFailed, firstFailed, exact);
        LoopingCycleLeadsBack(lg, zj, st, zp, loc, exact);
        outcome := Ambiguous;
      }
    } else {
      st' := AddContexts(lg, zj, exact, st, zp, k, numFailed, firstFailed, generated);
    }
  }

  lemma {:induction false} OriginatorHas(
      lg: LaneGraph, zj: nat, exact: bool, pip: ParserInProgress, og: ParserGraph, firstSets: seq<set<int>>,
      st: LaneState, zp: nat, k: nat, nf: nat, ff: int)
    requires Describes(lg, pip, og, firstSets) && Looping(lg, zj, st, zp, k, nf, ff, exact)
    requires k < |og[st.lane[zp]]| && og[st.lane[zp]][k] < |og|
    ensures var w := og[st.lane[zp]][k];
      && lg.og == og && pip.IsAddress(w) && 0 <= pip.ConfigAt(w) < |pip.cs|
      && pip.cs[pip.ConfigAt(w)].production < |pip.g.productions|
      && FirstSets.InRange(FollowString(pip, w), |firstSets|)
      && lg.first[w] == FirstSets.FirstOfString(FollowString(pip, w), firstSets)
      && HasEdge(og, st.lane[zp], w) && StrictlyIncreasing(og[st.lane[zp]])
    ensures Core(lg, zj, st, exact) && st.IsEntry(zp)
  {
    var w := og[st.lane[zp]][k];
    assert HasEdge(og, st.lane[zp], w);
  }

  /** Looks at originator `k` of the address at `zp`. */
  method TraceOriginator(
      ghost lg: LaneGraph, ghost zj: nat, ghost exact: bool, pip: ParserInProgress, og: ParserGraph,
      firstSets: seq<set<int>>, st: LaneState, zp: nat, k: nat, numFailed: nat, firstFailed: int)
    returns (outcome: Outcome, st': LaneState, numFailed': nat, firstFailed': int)
    requires Describes(lg, pip, og, firstSets) && LoopExtras(lg, st, zp, k, numFailed, exact)
    requires Looping(lg, zj, st, zp, k, numFailed, firstFailed, exact) && k < |og[st.lane[zp]]|
    requires Fits(lg, st) && og[st.lane[zp]][k] < |og|
    ensures IsOriginatorStep(lg, zj, exact, zp, k, st, numFailed, outcome, st', numFailed', firstFailed')
    ensures Agrees(Stepped(lg, st, zp, og[st.lane[zp]][k], numFailed, firstFailed),
      outcome, st', numFailed', firstFailed')
  {
    hide LoopExtras, IsOriginatorStep, Looping, Describes, Failing, Closing, Adding;
    OriginatorHas(lg, zj, exact, pip, og, firstSets, st, zp, k, numFailed, firstFailed);
    outcome, st', numFailed', firstFailed' := Done, st, numFailed, firstFailed;
    var zetaPrime := og[st.lane[zp]][k];
    var gamma := GetFollowString(pip, zetaPrime);
    var gammaFirst := FirstSets.GetFirstSetOfString(gamma, firstSets);
    if HasNonNullTerminalDescendant(gammaFirst) {
      outcome, st', numFailed', firstFailed' := TraceNonNull(
        lg, zj, exact, gammaFirst, zetaPrime, st, zp, k, numFailed, firstFailed);
    } else if st.complete[zetaPrime] {
      OriginatorsContextsFlow(lg, zj, st, st.lane[zp], zetaPrime, exact);
      st' := AddContexts(lg, zj, exact, st, zp, k, numFailed, firstFailed, st.contexts[zetaPrime]);
    } else if st.inLane[zetaPrime] {
      var loc := FlaggedIsBelow(lg, zj, st, zp, k, numFailed, firstFailed, exact);
      LoopingCycleLeadsBack(lg, zj, st, zp, loc, exact);
      st' := CloseCycle(lg, zj, exact, st, zp, k, numFailed, firstFailed, zetaPrime);
    } else {
      FreshHasNothing(lg, zj, st, zetaPrime, exact);
      outcome, st', numFailed', firstFailed' := LeadOn(
        lg, zj, exact, st, zp, k, numFailed, firstFailed, zetaPrime);
    }
  }

  /** The top of the lane is an address to be traced; what is below has been traced. */
  ghost predicate IsReady(lg: LaneGraph, zj: nat, st: LaneState, exact: bool) {
    && Core(lg, zj, st, exact) && IsSealed(lg, st) && st.IsEntry(|st.lane| - 1)
    && TracedBelow(lg, st, |st.lane| - 1, exact)
    && HavePushers(lg, st, |st.lane| - 1) && IsForked(lg, st)
    && (exact ==> IsTame(lg, st))
  }

  /** All of the lane has been traced. */
  ghost predicate IsAllTraced(lg: LaneGraph, zj: nat, st: LaneState, exact: bool) {
    && Core(lg, zj, st, exact) && IsClosing(lg, st)
    && TracedBelow(lg, st, |st.lane|, exact)
    && HavePushers(lg, st, |st.lane|) && IsForked(lg, st)
    && (exact ==> IsTame(lg, st))
  }

  lemma ReadyHas(
      lg: LaneGraph, zj: nat, pip: ParserInProgress, og: ParserGraph, firstSets: seq<set<int>>, st: LaneState,
      exact: bool)
    requires Describes(lg, pip, og, firstSets) && IsReady(lg, zj, st, exact)
    ensures pip.Valid() && lg.Valid() && lg.og == og && st.lane != [] && 0 <= st.lane[|st.lane| - 1] < |og|
  {
    hide Core, IsOriginatorGraph;
  }

  lemma LoopStarts(lg: LaneGraph, zj: nat, st: LaneState, exact: bool)
    requires IsReady(lg, zj, st, exact)
    ensures IsInLoop(lg, zj, st, st, 0, 0, -1, exact)
  {
    var ps :| ArePushers(lg, st, ps, |st.lane| - 1);
    assert PushedSoFar(lg, st, ps, |st.lane| - 1, 0);
    assert IsNoosed(lg, st, |st.lane| - 1, 0, 0);
  }

  lemma LoopEndsTraced(
      lg: LaneGraph, zj: nat, st: LaneState, zp: nat, nf: nat, ff: int, exact: bool)
    requires lg.Valid() && st.IsEntry(zp) && st.lane[zp] < |lg.og|
    requires Looping(lg, zj, st, zp, |lg.og[st.lane[zp]]|, nf, ff, exact)
    ensures TracedBelow(lg, st, if nf > 0 then |st.lane| - 1 else |st.lane|, exact)
  {
    AllServedIsTraced(lg, st, zp, exact);
  }

  lemma AllServedIsTraced(lg: LaneGraph, st: LaneState, zp: nat, exact: bool)
    requires WellFormed(lg, st) && st.IsEntry(zp) && TracedSoFar(lg, st, zp, |lg.og[st.lane[zp]]|, exact)
    ensures TracedBelow(lg, st, zp + 1, exact)
  {
    var edges := lg.og[st.lane[zp]];
    assert edges[..|edges|] == edges;
    assert IsTraced(lg, st, zp, exact);
  }

  lemma LoopEndsWell(
      lg: LaneGraph, zj: nat, st: LaneState, zp: nat, nf: nat, ff: int, exact: bool)
    requires lg.Valid() && st.IsEntry(zp) && st.lane[zp] < |lg.og|
    requires Looping(lg, zj, st, zp, |lg.og[st.lane[zp]]|, nf, ff, exact)
    requires LoopExtras(lg, st, zp, |lg.og[st.lane[zp]]|, nf, exact) && IsSealed(lg, st)
    ensures if nf > 0 then IsReady(lg, zj, st, exact) else IsAllTraced(lg, zj, st, exact)
  {
    LoopEndsTraced(lg, zj, st, zp, nf, ff, exact);
    LoopPushersArePushers(lg, st, zp, |lg.og[st.lane[zp]]|, nf, if nf > 0 then |st.lane| - 1 else |st.lane|);
  }

  lemma LoopPushersArePushers(lg: LaneGraph, st: LaneState, zp: nat, k: nat, nf: nat, limit: int)
    requires LoopHasPushers(lg, st, zp, k, nf) && zp < limit
    ensures HavePushers(lg, st, limit)
  {
    var low := if nf <= 1 then zp else zp + 1;
    var ps :| ArePushers(lg, st, ps, low) && PushedSoFar(lg, st, ps, zp, k);
    assert ArePushers(lg, st, ps, limit);
  }

  /** The loop started from `st`, and has looked at `k` originators of its top. */
  ghost predicate IsInLoop(
      lg: LaneGraph, zj: nat, st: LaneState, st': LaneState, k: nat, nf: nat, ff: int, exact: bool) {
    && IsReady(lg, zj, st, exact)
    && var zp := |st.lane| - 1;
       && st'.IsEntry(zp) && st'.lane[zp] == st.lane[zp] && st'.complete == st.complete
       && Looping(lg, zj, st', zp, k, nf, ff, exact)
       && LoopExtras(lg, st', zp, k, nf, exact)
       && if nf == 0 then Fresh(st') == Fresh(st) && st'.stack == st.stack else Fresh(st') < Fresh(st)
  }

  lemma LoopGoesOn(
      lg: LaneGraph, zj: nat, st: LaneState, st1: LaneState, k: nat, nf: nat, ff: int,
      st2: LaneState, nf': nat, ff': int, exact: bool)
    requires IsInLoop(lg, zj, st, st1, k, nf, ff, exact)
    requires IsOriginatorStep(lg, zj, exact, |st.lane| - 1, k, st1, nf, Done, st2, nf', ff')
    ensures IsInLoop(lg, zj, st, st2, k + 1, nf', ff', exact)
  {
  }

  ghost predicate LoopAgrees(lg: LaneGraph, st: LaneState, outcome: Outcome, st': LaneState, testsFailed: bool) {
    && st.lane != [] && lg.Valid() && 0 <= st.lane[|st.lane| - 1] < |lg.og|
    && var zp := |st.lane| - 1;
       var p := Looped(lg, lg.og[st.lane[zp]], st, zp, 0, -1);
       p.outcome == outcome && (outcome.Done? ==> p.st == st' && testsFailed == (0 < p.nf))
  }

  lemma {:induction false} LoopedOnce(
      lg: LaneGraph, edges: seq<nat>, k: nat, st: LaneState, zp: nat, nf: nat, ff: int)
    requires k < |edges| && edges[k] < |lg.og| && Fits(lg, st) && zp < |st.lane|
    ensures var p := Stepped(lg, st, zp, edges[k], nf, ff);
      Looped(lg, edges[k..], st, zp, nf, ff) ==
      if p.outcome.Done? then Looped(lg, edges[k + 1..], p.st, zp, p.nf, p.ff) else p
  {
    assert edges[k..][0] == edges[k] && edges[k..][1..] == edges[k + 1..];
  }

  lemma {:induction false} LoopedNone(lg: LaneGraph, st: LaneState, zp: nat, nf: nat, ff: int)
    ensures Looped(lg, [], st, zp, nf, ff) == Progress(Done, st, nf, ff)
  {
  }

  lemma LoopEnds(
      lg: LaneGraph, zj: nat, st0: LaneState, st: LaneState, zp: nat, nf: nat, ff: int, exact: bool)
    requires zp + 1 == |st0.lane| && lg.Valid() && 0 <= st0.lane[zp] < |lg.og|
    requires IsInLoop(lg, zj, st0, st, |lg.og[st0.lane[zp]]|, nf, ff, exact)
    ensures st.complete == st0.complete
    ensures if nf > 0 then IsReady(lg, zj, st, exact) && Fresh(st) < Fresh(st0)
            else IsAllTraced(lg, zj, st, exact) && Fresh(st) == Fresh(st0) && st.stack == st0.stack
  {
    LoopEndsWell(lg, zj, st, zp, nf, ff, exact);
  }

  /** Looks at originator `k` of the top of the lane of `st0`. */
  method TraceNext(
      ghost lg: LaneGraph, ghost zj: nat, ghost exact: bool, pip: ParserInProgress, og: ParserGraph,
      firstSets: seq<set<int>>, ghost st0: LaneState, st: LaneState, zp: nat, k: nat, numFailed: nat, firstFailed: int)
    returns (outcome: Outcome, st': LaneState, numFailed': nat, firstFailed': int)
    requires Describes(lg, pip, og, firstSets) && IsInLoop(lg, zj, st0, st, k, numFailed, firstFailed, exact)
    requires zp + 1 == |st0.lane| && k < |og[st0.lane[zp]]|
    ensures outcome.Done? ==> IsInLoop(lg, zj, st0, st', k + 1, numFailed', firstFailed', exact)
    ensures outcome.Ambiguous? ==> IsAmbiguous(lg)
    ensures outcome.CheckFailed? ==> HasSnare(lg)
    ensures var edges := og[st0.lane[zp]];
      var p := Looped(lg, edges[k..], st, zp, numFailed, firstFailed);
      p.outcome == outcome || outcome.Done?
    ensures var edges := og[st0.lane[zp]];
      outcome.Done? ==> Looped(lg, edges[k..], st, zp, numFailed, firstFailed)
                        == Looped(lg, edges[k + 1..], st', zp, numFailed', firstFailed')
  {
    hide LoopExtras, IsOriginatorGraph, Stepped, Leads, HasSnare;
    WellFormedFits(lg, st);
    var zeta := st.lane[zp];
    assert HasEdge(og, zeta, og[zeta][k]);
    LoopedOnce(lg, og[zeta], k, st, zp, numFailed, firstFailed);
    outcome, st', numFailed', firstFailed' :=
      TraceOriginator(lg, zj, exact, pip, og, firstSets, st, zp, k, numFailed, firstFailed);
    if outcome.Done? {
      LoopGoesOn(lg, zj, st0, st, k, numFailed, firstFailed, st', numFailed', firstFailed', exact);
    }
  }

  lemma {:induction false} ReadyFailsWhen(
      lg: LaneGraph, zj: nat, pip: ParserInProgress, og: ParserGraph, firstSets: seq<set<int>>, st: LaneState,
      exact: bool)
    requires Describes(lg, pip, og, firstSets) && IsReady(lg, zj, st, exact)
    ensures lg.Valid() && lg.og == og && st.lane != [] && 0 <= st.lane[|st.lane| - 1] < |og|
    ensures Looped(lg, og[st.lane[|st.lane| - 1]], st, |st.lane| - 1, 0, -1).outcome.CheckFailed? <==>
      TurnFailsCheck(lg, st)
  {
    hide Looped, FailsCheck;
    ReadyHas(lg, zj, pip, og, firstSets, st, exact);
    ReadyHasFlags(lg, zj, st, exact);
    var edges := og[st.lane[|st.lane| - 1]];
    RowIsOriginators(lg, pip, og, firstSets, st.lane[|st.lane| - 1]);
    WhenCheckFails(lg, st, |st.lane| - 1, edges);
  }

  lemma ReadyHasFlags(lg: LaneGraph, zj: nat, st: LaneState, exact: bool)
    requires IsReady(lg, zj, st, exact)
    ensures Fits(lg, st) && forall w: nat :: w < |lg.og| && st.inLane[w] ==> w in st.lane
  {
    hide TracedBelow, IsTame, IsForked, HavePushers, IsSealed;
  }

  lemma RowIsOriginators(
      lg: LaneGraph, pip: ParserInProgress, og: ParserGraph, firstSets: seq<set<int>>, z: nat)
    requires Describes(lg, pip, og, firstSets) && z < |og|
    ensures lg.og == og && AreOriginators(lg, og[z])
  {
    assert forall k :: 0 <= k < |og[z]| ==> HasEdge(og, z, og[z][k]);
  }

  /** Looks at all originators of the top of the lane. If some lead on, the first of them is the new top. */
  method DoLoop(
      ghost lg: LaneGraph, ghost zj: nat, ghost exact: bool, pip: ParserInProgress, og: ParserGraph,
      firstSets: seq<set<int>>, st: LaneState)
    returns (outcome: Outcome, st': LaneState, testsFailed: bool)
    requires Describes(lg, pip, og, firstSets) && IsReady(lg, zj, st, exact)
    ensures outcome.Done? ==> st'.complete == st.complete
    ensures outcome.Done? && testsFailed ==> IsReady(lg, zj, st', exact) && Fresh(st') < Fresh(st)
    ensures outcome.Done? && !testsFailed ==>
      IsAllTraced(lg, zj, st', exact) && Fresh(st') == Fresh(st) && st'.stack == st.stack
    ensures outcome.Ambiguous? ==> IsAmbiguous(lg)
    ensures outcome.CheckFailed? ==> HasSnare(lg)
    ensures outcome.CheckFailed? <==> TurnFailsCheck(lg, st)
    ensures LoopAgrees(lg, st, outcome, st', testsFailed)
  {
    hide IsInLoop, IsReady, IsAllTraced, Describes, TurnFailsCheck, Looped;
    ReadyFailsWhen(lg, zj, pip, og, firstSets, st, exact);
    ReadyHas(lg, zj, pip, og, firstSets, st, exact);
    var zp := |st.lane| - 1;
    var zeta := st.lane[zp];
    var edges := og[zeta];
    var numFailed, firstFailed := 0, -1;
    outcome, st' := Done, st;
    LoopStarts(lg, zj, st, exact);
    for k := 0 to |edges|
      invariant outcome.Done? && IsInLoop(lg, zj, st, st', k, numFailed, firstFailed, exact)
      invariant Looped(lg, edges, st, zp, 0, -1) == Looped(lg, edges[k..], st', zp, numFailed, firstFailed)
    {
      outcome, st', numFailed, firstFailed :=
        TraceNext(lg, zj, exact, pip, og, firstSets, st, st', zp, k, numFailed, firstFailed);
      if !outcome.Done? {
        testsFailed := false;
        return;
      }
    }
    assert edges[|edges|..] == [];
    LoopedNone(lg, st', zp, numFailed, firstFailed);
    LoopEnds(lg, zj, st, st', zp, numFailed, firstFailed, exact);
    testsFailed := 0 < numFailed;
  }

  // ----- heuristic propagation -----

  /** What was complete still is. */
  ghost predicate StillComplete(complete: seq<bool>, complete': seq<bool>) {
    && |complete| == |complete'|
    && forall z :: 0 <= z < |complete| && complete[z] ==> complete'[z]
  }

  /** Two configs of one state with the dot at the start of productions of one nonterminal. */
  predicate AreStartSiblings(pip: ParserInProgress, z: nat, w: nat) {
    && pip.IsAddress(z) && pip.IsAddress(w) && pip.scs[z].state == pip.scs[w].state
    && 0 <= pip.ConfigAt(z) < |pip.cs| && 0 <= pip.ConfigAt(w) < |pip.cs|
    && pip.cs[pip.ConfigAt(z)].dot == 0 && pip.cs[pip.ConfigAt(w)].dot == 0
    && pip.cs[pip.ConfigAt(z)].production < |pip.g.productions|
    && pip.cs[pip.ConfigAt(w)].production < |pip.g.productions|
    && Lhs(pip.g, pip.cs, pip.ConfigAt(z)) == Lhs(pip.g, pip.cs, pip.ConfigAt(w))
  }

  /** With the dot at the start an address comes from no other along transitions. */
  lemma StartComesFromItself(pip: ParserInProgress, z: nat, y: nat)
    requires pip.IsAddress(z) && 0 <= pip.ConfigAt(z) < |pip.cs| && pip.cs[pip.ConfigAt(z)].dot == 0
    requires ComesFrom(pip, z, y)
    ensures y == z
  {
    var path :| IsTransitionPath(pip, path, z, y);
    assert IsPathStep(pip, path, 0);
  }

  lemma SiblingsHaveSameOriginators(
      lg: LaneGraph, pip: ParserInProgress, og: ParserGraph, firstSets: seq<set<int>>, z: nat, w: nat)
    requires Describes(lg, pip, og, firstSets) && AreStartSiblings(pip, z, w)
    ensures z < |og| && w < |og| && og[z] == og[w] && lg.base[z] == lg.base[w]
  {
    forall x: nat
      ensures IsOriginator(pip, z, x) <==> IsOriginator(pip, w, x)
    {
      if IsOriginator(pip, z, x) {
        SiblingOriginator(pip, z, w, x);
      }
      if IsOriginator(pip, w, x) {
        SiblingOriginator(pip, w, z, x);
      }
    }
    var a: seq<int>, b: seq<int> := og[z], og[w];
    forall x | x in Elements(a)
      ensures x in Elements(b)
    {
      assert HasEdge(og, z, x) && HasEdge(og, w, x);
    }
    forall x | x in Elements(b)
      ensures x in Elements(a)
    {
      assert HasEdge(og, w, x) && HasEdge(og, z, x);
    }
    IncreasingSeqsAreEqual(a, b);
  }

  lemma FoundSibling(
      lg: LaneGraph, pip: ParserInProgress, og: ParserGraph, firstSets: seq<set<int>>, z: nat, w: nat, s: nat, j: nat)
    requires Describes(lg, pip, og, firstSets) && z < |og| && pip.scs[z].state == s && j < |pip.states[s].configs|
    requires w == pip.states2scs[s][j]
    requires pip.cs[pip.ConfigAt(z)].dot == 0 && pip.cs[pip.states[s].configs[j]].dot == 0
    requires Lhs(pip.g, pip.cs, pip.ConfigAt(z)) == Lhs(pip.g, pip.cs, pip.states[s].configs[j])
    ensures w < |og| && og[z] == og[w] && lg.base[z] == lg.base[w]
  {
    assert pip.scs[w] == StateConfig(s, j);
    SiblingsHaveSameOriginators(lg, pip, og, firstSets, z, w);
  }

  lemma SiblingOriginator(pip: ParserInProgress, z: nat, w: nat, x: nat)
    requires AreStartSiblings(pip, z, w) && IsOriginator(pip, z, x)
    ensures IsOriginator(pip, w, x)
  {
    var y: nat :| ComesFrom(pip, z, y) && IsImmediatePredecessor(pip, y, x);
    StartComesFromItself(pip, z, y);
    ComesFromItself(pip, w);
    assert IsImmediatePredecessor(pip, w, x);
  }

  lemma PropagateKeepsAllTraced(lg: LaneGraph, zj: nat, st: LaneState, w: nat, exact: bool)
    requires IsAllTraced(lg, zj, st, exact) && MayPropagate(lg, st, w)
    ensures IsAllTraced(lg, zj, Propagated(st, w), exact)
  {
    PropagateKeepsCore(lg, zj, st, w, exact);
    PropagateKeepsTraced(lg, zj, st, w, exact);
    PropagateKeepsClosing(lg, st, w);
    SameLaneKeepsForked(lg, st, Propagated(st, w));
    if exact {
      SameLaneKeepsTame(lg, st, Propagated(st, w));
    }
    var ps :| ArePushers(lg, st, ps, |st.lane|);
    SamePushers(lg, st, Propagated(st, w), ps, |st.lane|);
  }

  ghost predicate HasPropagated(lg: LaneGraph, zj: nat, st: LaneState, st': LaneState, exact: bool) {
    && IsAllTraced(lg, zj, st, exact) && IsAllTraced(lg, zj, st', exact)
    && st' == st.(contexts := st'.contexts, complete := st'.complete)
    && StillComplete(st.complete, st'.complete)
  }

  lemma PropagatesOn(
      lg: LaneGraph, zj: nat, st: LaneState, st': LaneState, w: nat, exact: bool)
    requires HasPropagated(lg, zj, st, st', exact) && st.IsEntry(|st.lane| - 1) && w < |lg.og|
    requires st.complete[st.lane[|st.lane| - 1]]
    requires lg.og[w] == lg.og[st.lane[|st.lane| - 1]] && lg.base[w] == lg.base[st.lane[|st.lane| - 1]]
    ensures HasPropagated(lg, zj, st, Propagated(st', w), exact)
  {
    PropagateKeepsAllTraced(lg, zj, st', w, exact);
  }

  /** The addresses of the other start configs of the nonterminal, among the first `n` configs of the state. */
  ghost function SiblingsUpTo(pip: ParserInProgress, z: nat, n: nat): seq<nat>
    requires pip.Valid() && z < |pip.scs| && n <= |pip.states[pip.scs[z].state].configs|
  {
    if n == 0 then []
    else
      var c, before := pip.states[pip.scs[z].state].configs[n - 1], SiblingsUpTo(pip, z, n - 1);
      if c == pip.ConfigAt(z) || pip.cs[c].dot != 0 || Lhs(pip.g, pip.cs, pip.ConfigAt(z)) != Lhs(pip.g, pip.cs, c)
      then before
      else before + [pip.states2scs[pip.scs[z].state][n - 1]]
  }

  ghost function SiblingsOf(pip: ParserInProgress, z: nat): seq<nat>
    requires pip.Valid() && z < |pip.scs|
  {
    if pip.cs[pip.ConfigAt(z)].dot != 0 then []
    else SiblingsUpTo(pip, z, |pip.states[pip.scs[z].state].configs|)
  }

  ghost function SiblingTable(pip: ParserInProgress): (sibs: seq<seq<nat>>)
    requires pip.Valid()
    ensures |sibs| == |pip.scs| && forall z: nat :: z < |sibs| ==> sibs[z] == SiblingsOf(pip, z)
  {
    seq(|pip.scs|, z requires 0 <= z < |pip.scs| => SiblingsOf(pip, z))
  }

  /** Copies the contexts of `tau` to config `j` of its state, if that is a sibling. */
  method PropagateTo(
      ghost lg: LaneGraph, ghost zj: nat, ghost exact: bool, pip: ParserInProgress, ghost og: ParserGraph,
      ghost firstSets: seq<set<int>>, ghost st0: LaneState, st: LaneState, tau: nat, j: nat)
    returns (st': LaneState)
    requires Describes(lg, pip, og, firstSets) && HasPropagated(lg, zj, st0, st, exact)
    requires st0.IsEntry(|st0.lane| - 1) && tau == st0.lane[|st0.lane| - 1] && st0.complete[tau]
    requires pip.cs[pip.ConfigAt(tau)].dot == 0 && j < |pip.states[pip.scs[tau].state].configs|
    requires st == Spread(st0, tau, SiblingsUpTo(pip, tau, j))
    ensures HasPropagated(lg, zj, st0, st', exact) && st' == Spread(st0, tau, SiblingsUpTo(pip, tau, j + 1))
  {
    hide HasPropagated, Spread;
    PropagatedHas(lg, zj, st0, st, exact);
    st' := st;
    var state := pip.scs[tau].state;
    var configI, configJ := pip.ConfigAt(tau), pip.states[state].configs[j];
    if configJ == configI || pip.cs[configJ].dot != 0 || Lhs(pip.g, pip.cs, configI) != Lhs(pip.g, pip.cs, configJ) {
      return;
    }
    var tauPrime := pip.states2scs[state][j];
    PropagatesToSibling(lg, zj, exact, pip, og, firstSets, st0, st, tau, tauPrime, j);
    st' := st'.(contexts := st'.contexts[tauPrime := st'.contexts[tau]], complete := st'.complete[tauPrime := true]);
  }

  /** Copies the contexts of the complete address on top of the lane to its siblings. */
  method HeuristicPropagationOfContextSets(
      ghost lg: LaneGraph, ghost zj: nat, ghost exact: bool, pip: ParserInProgress, ghost og: ParserGraph,
      ghost firstSets: seq<set<int>>, st: LaneState)
    returns (st': LaneState)
    requires Describes(lg, pip, og, firstSets) && IsAllTraced(lg, zj, st, exact)
    requires st.IsEntry(|st.lane| - 1) && st.complete[st.lane[|st.lane| - 1]]
    ensures IsAllTraced(lg, zj, st', exact)
    ensures st' == st.(contexts := st'.contexts, complete := st'.complete)
    ensures StillComplete(st.complete, st'.complete) && Fresh(st') <= Fresh(st)
    ensures st' == Spread(st, st.lane[|st.lane| - 1], SiblingsOf(pip, st.lane[|st.lane| - 1]))
  {
    hide IsAllTraced, HasPropagated, StillComplete, Fresh, Describes;
    DescribesMachine(lg, pip, og, firstSets);
    StartsPropagating(lg, zj, st, exact);
    PropagatedHas(lg, zj, st, st, exact);
    st' := st;
    var tau := st.lane[|st.lane| - 1];
    var state := pip.scs[tau].state;
    if pip.cs[pip.ConfigAt(tau)].dot == 0 {
      for j := 0 to |pip.states[state].configs|
        invariant HasPropagated(lg, zj, st, st', exact)
        invariant st' == Spread(st, tau, SiblingsUpTo(pip, tau, j))
      {
        st' := PropagateTo(lg, zj, exact, pip, og, firstSets, st, st', tau, j);
      }
    }
    HasSpread(lg, zj, st, st', exact);
  }

  lemma DescribesMachine(
      lg: LaneGraph, pip: ParserInProgress, og: ParserGraph, firstSets: seq<set<int>>)
    requires Describes(lg, pip, og, firstSets)
    ensures pip.Valid() && |lg.og| == |pip.scs|
  {
  }

  lemma StartsPropagating(lg: LaneGraph, zj: nat, st: LaneState, exact: bool)
    requires IsAllTraced(lg, zj, st, exact)
    ensures HasPropagated(lg, zj, st, st, exact)
  {
  }

  lemma HasSpread(lg: LaneGraph, zj: nat, st: LaneState, st': LaneState, exact: bool)
    requires HasPropagated(lg, zj, st, st', exact)
    ensures IsAllTraced(lg, zj, st', exact) && st' == st.(contexts := st'.contexts, complete := st'.complete)
    ensures StillComplete(st.complete, st'.complete) && Fresh(st') <= Fresh(st)
  {
  }

  lemma PropagatedHas(lg: LaneGraph, zj: nat, st: LaneState, st': LaneState, exact: bool)
    requires HasPropagated(lg, zj, st, st', exact) && st.IsEntry(|st.lane| - 1)
    ensures lg.Valid() && |st'.contexts| == |st'.complete| == |st.contexts| == |st.complete| == |lg.og|
    ensures st'.lane == st.lane && st.lane[|st.lane| - 1] < |lg.og|
  {
  }

  lemma PropagatesToSibling(
      lg: LaneGraph, zj: nat, exact: bool, pip: ParserInProgress, og: ParserGraph, firstSets: seq<set<int>>,
      st: LaneState, st': LaneState, tau: nat, w: nat, j: nat)
    requires Describes(lg, pip, og, firstSets) && HasPropagated(lg, zj, st, st', exact)
    requires st.IsEntry(|st.lane| - 1) && tau == st.lane[|st.lane| - 1] && st.complete[tau]
    requires j < |pip.states[pip.scs[tau].state].configs| && w == pip.states2scs[pip.scs[tau].state][j]
    requires var c, d := pip.ConfigAt(tau), pip.states[pip.scs[tau].state].configs[j];
      c != d && pip.cs[c].dot == 0 && pip.cs[d].dot == 0 && Lhs(pip.g, pip.cs, c) == Lhs(pip.g, pip.cs, d)
    requires st' == Spread(st, tau, SiblingsUpTo(pip, tau, j))
    ensures w < |lg.og| && HasPropagated(lg, zj, st, Propagated(st', w), exact)
    ensures Propagated(st', w) == Spread(st, tau, SiblingsUpTo(pip, tau, j + 1))
  {
    hide HasPropagated;
    PropagatedHas(lg, zj, st, st', exact);
    FoundSibling(lg, pip, og, firstSets, tau, w, pip.scs[tau].state, j);
    PropagatesOn(lg, zj, st, st', w, exact);
    assert SiblingsUpTo(pip, tau, j + 1) == SiblingsUpTo(pip, tau, j) + [w];
    SpreadOnce(st, tau, SiblingsUpTo(pip, tau, j), w);
  }

  lemma {:induction false} SpreadOnce(st: LaneState, tau: nat, list: seq<nat>, w: nat)
    requires tau < |st.contexts| == |st.complete| && w < |st.contexts|
    requires |Spread(st, tau, list).contexts| == |st.contexts|
    requires |Spread(st, tau, list).complete| == |st.complete|
    ensures var st1 := Spread(st, tau, list);
      Spread(st, tau, list + [w]) ==
      st1.(contexts := st1.contexts[w := st1.contexts[tau]], complete := st1.complete[w := true])
  {
    assert (list + [w])[..|list|] == list;
  }

  // ----- popping the lane -----

  lemma MarkerMeansStack(lg: LaneGraph, zj: nat, st: LaneState, exact: bool)
    requires Core(lg, zj, st, exact)
    ensures st.lane[|st.lane| - 1] == MARKER ==> st.stack != [] && 1 < |st.lane|
    ensures st.lane[|st.lane| - 1] == ZERO ==> 1 < |st.lane|
  {
  }

  lemma PopKeepsFresh(lg: LaneGraph, st: LaneState)
    requires WellFormed(lg, st) && MayPop(lg, st)
    ensures Fresh(Popped(st)) <= Fresh(st)
  {
    var top := st.lane[|st.lane| - 1];
    forall z | z in st.lane && z != top
      ensures z in Popped(st).lane
    {
      var i :| 0 <= i < |st.lane| && st.lane[i] == z;
      assert Popped(st).lane[i] == z;
    }
  }

  lemma PopKeepsAllTraced(lg: LaneGraph, zj: nat, st: LaneState, exact: bool)
    requires IsAllTraced(lg, zj, st, exact) && MayPop(lg, st)
    ensures IsAllTraced(lg, zj, Popped(st), exact)
    ensures Fresh(Popped(st)) <= Fresh(st)
  {
    PopKeepsCore(lg, zj, st, exact);
    PopKeepsTraced(lg, st, exact);
    PopKeepsClosing(lg, st);
    PopKeepsForked(lg, st, Popped(st), |st.lane| - 1);
    if exact {
      PopKeepsTame(lg, st);
    }
    PopKeepsFresh(lg, st);
    var ps :| ArePushers(lg, st, ps, |st.lane|);
    PopKeepsPushers(lg, st, ps);
  }

  lemma UnstackKeepsAllTraced(lg: LaneGraph, zj: nat, st: LaneState, exact: bool)
    requires IsAllTraced(lg, zj, st, exact) && MayUnstack(lg, st)
    ensures IsAllTraced(lg, zj, Unstacked(st), exact)
  {
    UnstackKeepsCore(lg, zj, st, exact);
    UnstackKeepsTraced(lg, st, |st.lane|, exact);
    UnstackKeepsClosing(lg, st);
    SameLaneKeepsForked(lg, st, Unstacked(st));
    if exact {
      UnstackKeepsTame(lg, st);
    }
    var ps :| ArePushers(lg, st, ps, |st.lane|);
    UnstackKeepsPushers(lg, st, ps, |st.lane|);
  }

  /** So the top of the stack may go on the lane. */
  lemma MayResume(lg: LaneGraph, zj: nat, st: LaneState, exact: bool)
    requires Core(lg, zj, st, exact) && st.lane[|st.lane| - 1] == MARKER && st.IsWaiting(|st.stack| - 1)
    ensures MayPush(lg, st, st.stack[|st.stack| - 1], exact)
  {
    TopWaitsAboveAll(lg, st);
  }

  lemma ResumeKeepsReady(lg: LaneGraph, zj: nat, st: LaneState, w: nat, top: nat, exact: bool)
    requires IsAllTraced(lg, zj, st, exact) && st.lane[|st.lane| - 1] == MARKER
    requires top + 1 == |st.stack| && w == st.stack[top] && w < |lg.og| && !st.complete[w]
    ensures IsReady(lg, zj, Unstacked(PushedOnLane(st, w)), exact)
    ensures Fresh(Unstacked(PushedOnLane(st, w))) <= Fresh(st)
  {
    hide HavePushers;
    MayResume(lg, zj, st, exact);
    ResumeKeepsCore(lg, zj, st, w, exact);
    ResumeKeepsHavingPushers(lg, st, w);
    MarkerMeansClosed(lg, st);
    ResumeKeepsForked(lg, zj, st, w, top, exact);
    if exact {
      ResumeKeepsTame(lg, zj, st, w, top, exact);
    }
  }

  lemma ResumeKeepsForked(lg: LaneGraph, zj: nat, st: LaneState, w: nat, top: nat, exact: bool)
    requires Core(lg, zj, st, exact) && HavePushers(lg, st, |st.lane|) && IsForked(lg, st)
    requires st.lane[|st.lane| - 1] == MARKER && top + 1 == |st.stack| && w == st.stack[top] && w < |lg.og|
    requires !st.complete[w]
    ensures IsForked(lg, Unstacked(PushedOnLane(st, w)))
  {
    hide IsForked, HavePushers;
    TopWaitsAboveAll(lg, st);
    forall i | 0 <= i < |st.lane| && st.lane[i] == w
      ensures IsTwisted(lg, st, i)
    {
      assert st.IsEntry(i);
      DoubleIsTwisted(lg, st, i, top, |st.lane|, exact);
    }
    PushKeepsForked(lg, st, Unstacked(PushedOnLane(st, w)), w);
  }

  lemma ResumeKeepsHavingPushers(lg: LaneGraph, st: LaneState, w: nat)
    requires WellFormed(lg, st) && HavePushers(lg, st, |st.lane|)
    requires st.stack != [] && w == st.stack[|st.stack| - 1] && w < |lg.og|
    requires WellFormed(lg, PushedOnLane(st, w)) && WellFormed(lg, Unstacked(PushedOnLane(st, w)))
    ensures HavePushers(lg, Unstacked(PushedOnLane(st, w)), |st.lane|)
  {
    var ps :| ArePushers(lg, st, ps, |st.lane|);
    ResumeKeepsPushers(lg, st, ps, w);
  }

  lemma ResumeKeepsCore(lg: LaneGraph, zj: nat, st: LaneState, w: nat, exact: bool)
    requires Core(lg, zj, st, exact) && TracedBelow(lg, st, |st.lane|, exact)
    requires st.stack != [] && w == st.stack[|st.stack| - 1] && w < |lg.og| && !st.complete[w]
    requires MayPush(lg, st, w, exact)
    ensures WellFormed(lg, PushedOnLane(st, w))
    ensures Core(lg, zj, Unstacked(PushedOnLane(st, w)), exact)
    ensures TracedBelow(lg, Unstacked(PushedOnLane(st, w)), |st.lane|, exact)
    ensures Fresh(Unstacked(PushedOnLane(st, w))) <= Fresh(st)
  {
    var st1 := PushedOnLane(st, w);
    PushKeepsCore(lg, zj, st, w, exact);
    UnstackKeepsCore(lg, zj, st1, exact);
    PushKeepsTraced(lg, st, w, exact);
    UnstackKeepsTraced(lg, st1, |st.lane|, exact);
    assert forall z :: z in st.lane ==> z in st1.lane;
  }

  lemma PushKeepsTraced(lg: LaneGraph, st: LaneState, w: nat, exact: bool)
    requires WellFormed(lg, st) && w < |lg.og| && TracedBelow(lg, st, |st.lane|, exact)
    ensures WellFormed(lg, PushedOnLane(st, w)) && TracedBelow(lg, PushedOnLane(st, w), |st.lane|, exact)
  {
    PushKeepsServed(lg, st, w, exact);
    forall i, x: nat | 0 <= i < |st.lane| && PushedOnLane(st, w).IsEntry(i) && HasEdge(lg.og, st.lane[i], x)
      ensures IsServed(lg, PushedOnLane(st, w), i, x, exact)
    {
      assert IsTraced(lg, st, i, exact);
    }
  }

  lemma AllTracedHas(lg: LaneGraph, zj: nat, st: LaneState, exact: bool)
    requires IsAllTraced(lg, zj, st, exact)
    ensures lg.Valid() && st.lane != [] && |st.complete| == |st.inLane| == |lg.og|
    ensures forall s :: 0 <= s < |st.stack| ==> st.stack[s] == MARKER || 0 <= st.stack[s] < |lg.og|
    ensures st.lane[|st.lane| - 1] == MARKER || st.lane[|st.lane| - 1] == ZERO || 0 <= st.lane[|st.lane| - 1] < |lg.og|
    ensures st.lane[|st.lane| - 1] == MARKER ==> st.stack != []
  {
    MarkerMeansStack(lg, zj, st, exact);
  }

  lemma PopMarkers(lg: LaneGraph, zj: nat, st: LaneState, st': LaneState, exact: bool)
    requires IsAllTraced(lg, zj, st, exact) && st.lane[|st.lane| - 1] == MARKER
    requires st.stack != [] && st.stack[|st.stack| - 1] == MARKER
    requires st' == st.(stack := st.stack[..|st.stack| - 1], lane := st.lane[..|st.lane| - 1])
    ensures IsAllTraced(lg, zj, st', exact) && Fresh(st') <= Fresh(st)
  {
    MarkerMeansStack(lg, zj, st, exact);
    PopKeepsAllTraced(lg, zj, st, exact);
    assert st' == Popped(st);
  }

  lemma {:induction false} UnstackComplete(lg: LaneGraph, zj: nat, st: LaneState, exact: bool)
    requires IsAllTraced(lg, zj, st, exact) && st.lane[|st.lane| - 1] == MARKER
    requires st.IsWaiting(|st.stack| - 1) && st.stack[|st.stack| - 1] < |st.complete|
    requires st.complete[st.stack[|st.stack| - 1]]
    ensures IsAllTraced(lg, zj, Unstacked(st), exact) && StackPopped(st) == StackPopped(Unstacked(st))
  {
    hide IsAllTraced;
    AllTracedHas(lg, zj, st, exact);
    MayUnstackComplete(lg, zj, st, exact);
    UnstackKeepsAllTraced(lg, zj, st, exact);
  }

  lemma MayUnstackComplete(lg: LaneGraph, zj: nat, st: LaneState, exact: bool)
    requires IsAllTraced(lg, zj, st, exact) && st.IsWaiting(|st.stack| - 1)
    requires st.stack[|st.stack| - 1] < |st.complete| && st.complete[st.stack[|st.stack| - 1]]
    ensures WellFormed(lg, st) && MayUnstack(lg, st)
  {
  }

  lemma {:induction false} ResumeTop(lg: LaneGraph, zj: nat, st: LaneState, w: nat, top: nat, exact: bool)
    requires IsAllTraced(lg, zj, st, exact) && st.lane[|st.lane| - 1] == MARKER
    requires top + 1 == |st.stack| && w == st.stack[top] && w < |lg.og| && !st.complete[w]
    ensures IsReady(lg, zj, Unstacked(PushedOnLane(st, w)), exact)
    ensures Fresh(Unstacked(PushedOnLane(st, w))) <= Fresh(st)
    ensures StackPopped(st) == (Unstacked(PushedOnLane(st, w)), true)
  {
    ResumeKeepsReady(lg, zj, st, w, top, exact);
  }

  /** Takes addresses off the stack until one that is not complete can go on the lane, or a marker is
      reached and comes off both. */
  method PopStack(ghost lg: LaneGraph, ghost zj: nat, ghost exact: bool, st: LaneState)
    returns (st': LaneState, resumed: bool)
    requires IsAllTraced(lg, zj, st, exact) && st.lane[|st.lane| - 1] == MARKER
    ensures st'.contexts == st.contexts && st'.complete == st.complete
    ensures |st'.stack| < |st.stack| && Fresh(st') <= Fresh(st)
    ensures if resumed then IsReady(lg, zj, st', exact) else IsAllTraced(lg, zj, st', exact) && |st'.lane| < |st.lane|
    ensures (st', resumed) == StackPopped(st)
  {
    hide IsAllTraced, IsReady;
    AllTracedHas(lg, zj, st, exact);
    st' := st;
    while true
      invariant st' == st.(stack := st'.stack) && |st'.stack| <= |st.stack|
      invariant IsAllTraced(lg, zj, st', exact) && StackPopped(st') == StackPopped(st)
      decreases |st'.stack|
    {
      AllTracedHas(lg, zj, st', exact);
      var top := st'.stack[|st'.stack| - 1];
      ghost var before := st';
      if top == MARKER {
        st' := st'.(stack := st'.stack[..|st'.stack| - 1], lane := st'.lane[..|st'.lane| - 1]);
        PopMarkers(lg, zj, before, st', exact);
        return st', false;
      } else if st'.complete[top] {
        UnstackComplete(lg, zj, st', exact);
        st' := st'.(stack := st'.stack[..|st'.stack| - 1]);
      } else {
        ResumeTop(lg, zj, st', top, |st'.stack| - 1, exact);
        st' := st'.(stack := st'.stack[..|st'.stack| - 1]);
        st' := st'.(lane := st'.lane + [top], inLane := st'.inLane[top := true]);
        return st', true;
      }
    }
  }

  /** The run is over: only the first address is on the lane, and it is complete. */
  ghost predicate IsOver(lg: LaneGraph, zj: nat, st: LaneState, exact: bool) {
    && Core(lg, zj, st, exact) && IsSealed(lg, st) && |st.lane| == 1 && zj < |lg.og| && st.complete[zj]
  }

  lemma CompletedIsAllTraced(lg: LaneGraph, zj: nat, st: LaneState, st1: LaneState, exact: bool)
    requires IsAllTraced(lg, zj, st, exact) && st.IsEntry(|st.lane| - 1) && st1 == TopCompleted(st)
    ensures IsAllTraced(lg, zj, st1, exact)
    ensures st1.IsEntry(|st1.lane| - 1) && st1.complete[st1.lane[|st1.lane| - 1]]
    ensures StillComplete(st.complete, st1.complete)
    ensures Fresh(st1) <= Fresh(st)
  {
    CompleteKeepsCore(lg, zj, st, exact);
    CompleteKeepsClosing(lg, zj, st, exact);
    SameLaneKeepsForked(lg, st, st1);
    if exact {
      SameLaneKeepsTame(lg, st, st1);
    }
    var ps :| ArePushers(lg, st, ps, |st.lane|);
    SamePushers(lg, st, st1, ps, |st.lane|);
  }

  /** Completes the address on top of the lane and its siblings. */
  method CompleteTop(
      ghost lg: LaneGraph, ghost zj: nat, ghost exact: bool, pip: ParserInProgress, ghost og: ParserGraph,
      ghost firstSets: seq<set<int>>, st: LaneState)
    returns (st': LaneState)
    requires Describes(lg, pip, og, firstSets) && IsAllTraced(lg, zj, st, exact) && st.IsEntry(|st.lane| - 1)
    ensures IsAllTraced(lg, zj, st', exact) && StillComplete(st.complete, st'.complete)
    ensures st'.lane == st.lane && st'.stack == st.stack && Fresh(st') <= Fresh(st)
    ensures st' == Completed(SiblingTable(pip), st)
    ensures st'.complete[st.lane[|st.lane| - 1]] && !st'.inLane[st.lane[|st.lane| - 1]]
  {
    hide IsAllTraced, Describes, Fresh;
    DescribesMachine(lg, pip, og, firstSets);
    AllTracedHas(lg, zj, st, exact);
    var tau := st.lane[|st.lane| - 1];
    var st1 := st.(inLane := st.inLane[tau := false], complete := st.complete[tau := true]);
    CompletedIsAllTraced(lg, zj, st, st1, exact);
    st' := HeuristicPropagationOfContextSets(lg, zj, exact, pip, og, firstSets, st1);
  }

  lemma LastIsOver(lg: LaneGraph, zj: nat, st: LaneState, exact: bool)
    requires IsAllTraced(lg, zj, st, exact) && |st.lane| == 1 && st.IsEntry(0) && st.complete[st.lane[0]]
    ensures IsOver(lg, zj, st, exact)
  {
    OneEntryMeansClosed(lg, st);
  }

  lemma PopZero(lg: LaneGraph, zj: nat, st: LaneState, st': LaneState, exact: bool)
    requires IsAllTraced(lg, zj, st, exact) && st.lane[|st.lane| - 1] == ZERO
    requires st' == st.(lane := st.lane[..|st.lane| - 1])
    ensures IsAllTraced(lg, zj, st', exact) && Fresh(st') <= Fresh(st)
  {
    MarkerMeansStack(lg, zj, st, exact);
    PopKeepsAllTraced(lg, zj, st, exact);
  }

  /** Completes the address on top of the lane and takes it off, unless it is the last. */
  method PopAddress(
      ghost lg: LaneGraph, zetaJ: nat, ghost exact: bool, pip: ParserInProgress, ghost og: ParserGraph,
      ghost firstSets: seq<set<int>>, st: LaneState)
    returns (st': LaneState, ended: bool)
    requires Describes(lg, pip, og, firstSets) && IsAllTraced(lg, zetaJ, st, exact) && st.IsEntry(|st.lane| - 1)
    ensures StillComplete(st.complete, st'.complete) && st'.stack == st.stack && Fresh(st') <= Fresh(st)
    ensures if ended then IsOver(lg, zetaJ, st', exact)
            else IsAllTraced(lg, zetaJ, st', exact) && |st'.lane| < |st.lane|
    ensures LanePopped(SiblingTable(pip), zetaJ, st) ==
      if ended then (st', true) else LanePopped(SiblingTable(pip), zetaJ, st')
  {
    st' := CompleteTop(lg, zetaJ, exact, pip, og, firstSets, st);
    ended := |st'.lane| == 1 && st'.lane[0] == zetaJ;
    if ended {
      LastIsOver(lg, zetaJ, st', exact);
    } else {
      PopKeepsAllTraced(lg, zetaJ, st', exact);
      st' := st'.(lane := st'.lane[..|st'.lane| - 1]);
    }
  }

  /** Pops the lane, completing its addresses, until an address from the stack goes on it or the first
      address is complete. */
  method PopLane(
      ghost lg: LaneGraph, zetaJ: nat, ghost exact: bool, pip: ParserInProgress, ghost og: ParserGraph,
      ghost firstSets: seq<set<int>>, st: LaneState)
    returns (st': LaneState, ended: bool)
    requires Describes(lg, pip, og, firstSets) && IsAllTraced(lg, zetaJ, st, exact)
    ensures StillComplete(st.complete, st'.complete)
    ensures if ended then IsOver(lg, zetaJ, st', exact)
            else IsReady(lg, zetaJ, st', exact) && |st'.stack| < |st.stack| && Fresh(st') <= Fresh(st)
    ensures (st', ended) == LanePopped(SiblingTable(pip), zetaJ, st)
  {
    st', ended := st, false;
    while true
      invariant IsAllTraced(lg, zetaJ, st', exact) && !ended
      invariant LanePopped(SiblingTable(pip), zetaJ, st') == LanePopped(SiblingTable(pip), zetaJ, st)
      invariant StillComplete(st.complete, st'.complete)
      invariant |st'.stack| <= |st.stack| && Fresh(st') <= Fresh(st)
      decreases |st'.lane|
    {
      var top := st'.lane[|st'.lane| - 1];
      if top == MARKER {
        var resumed;
        st', resumed := PopStack(lg, zetaJ, exact, st');
        if resumed {
          return;
        }
      } else if top == ZERO {
        ghost var before := st';
        st' := st'.(lane := st'.lane[..|st'.lane| - 1]);
        PopZero(lg, zetaJ, before, st', exact);
      } else {
        st', ended := PopAddress(lg, zetaJ, exact, pip, og, firstSets, st');
        if ended {
          return;
        }
      }
    }
  }

  // ----- the whole algorithm -----

  /** Between two runs: what is recorded is right, and only complete addresses have contexts. */
  ghost predicate IsSettled(lg: LaneGraph, contexts: seq<set<int>>, complete: seq<bool>, exact: bool) {
    && lg.Valid() && |contexts| == |complete| == |lg.og|
    && (forall z: nat, t :: z < |lg.og| && t in contexts[z] ==> InContext(lg, z, t))
    && (exact ==> forall z: nat, t ::
          z < |lg.og| && complete[z] && InContext(lg, z, t) ==> t in contexts[z])
    && (forall z :: 0 <= z < |lg.og| && !complete[z] ==> lg.base[z] == {} && contexts[z] == {})
    && (forall z: nat, w: nat :: Continues(lg, z, w) && z < |lg.og| && complete[z] ==> w < |lg.og| && complete[w])
  }

  /** At complete addresses, the equations of the contexts hold. */
  ghost predicate SolvesAt(lg: LaneGraph, contexts: seq<set<int>>, z: nat, w: nat)
    requires lg.Valid() && |contexts| == |lg.og|
  {
    z < |lg.og| && HasEdge(lg.og, z, w) ==>
      && w < |lg.og| && lg.first[w] - {NULL} <= contexts[z]
      && (Vanishes(lg.first[w]) ==> contexts[w] <= contexts[z])
  }

  ghost predicate SolvesEquations(lg: LaneGraph, contexts: seq<set<int>>, complete: seq<bool>)
    requires lg.Valid() && |contexts| == |complete| == |lg.og|
  {
    && (forall z :: 0 <= z < |lg.og| && complete[z] ==> lg.base[z] <= contexts[z])
    && (forall z: nat, w: nat {:trigger SolvesAt(lg, contexts, z, w)} :: z < |lg.og| && complete[z] ==>
          SolvesAt(lg, contexts, z, w))
  }

  /** What has been recorded is everything, for each complete address, exactly when it solves the
      equations there: that can be checked one originator at a time. */
  lemma ExactWhenSolved(lg: LaneGraph, contexts: seq<set<int>>, complete: seq<bool>)
    requires IsSettled(lg, contexts, complete, false)
    ensures IsSettled(lg, contexts, complete, true) <==> SolvesEquations(lg, contexts, complete)
  {
    if IsSettled(lg, contexts, complete, true) {
      forall z | 0 <= z < |lg.og| && complete[z]
        ensures lg.base[z] <= contexts[z]
      {
        ReachesItself(lg, z);
        forall t | t in lg.base[z]
          ensures t in contexts[z]
        {
          assert Contributes(lg, z, t);
          assert InContext(lg, z, t);
        }
      }
      forall z: nat, w: nat | z < |lg.og| && complete[z]
        ensures SolvesAt(lg, contexts, z, w)
      {
        ExactSolves(lg, contexts, complete, z, w);
      }
    }
    if SolvesEquations(lg, contexts, complete) {
      forall z: nat, t | z < |lg.og| && complete[z] && InContext(lg, z, t)
        ensures t in contexts[z]
      {
        var y: nat :| Reaches(lg, z, y) && y < |lg.og| && Contributes(lg, y, t);
        var path :| IsLane(lg, path, z, y);
        SolutionHasLane(lg, contexts, complete, path, z, y, t);
      }
    }
  }

  lemma ExactSolves(
      lg: LaneGraph, contexts: seq<set<int>>, complete: seq<bool>, z: nat, w: nat)
    requires IsSettled(lg, contexts, complete, true) && z < |lg.og| && complete[z]
    ensures SolvesAt(lg, contexts, z, w)
  {
    if HasEdge(lg.og, z, w) {
      FirstsAreContexts(lg, z, w);
      forall t | t in lg.first[w] - {NULL}
        ensures t in contexts[z]
      {
        assert InContext(lg, z, t);
      }
      if Vanishes(lg.first[w]) {
        StepLeads(lg, z, w);
        LeadsIsReaches(lg, z, w);
        forall t | t in contexts[w]
          ensures t in contexts[z]
        {
          ContextsFlow(lg, z, w, t);
        }
      }
    }
  }

  lemma SolutionHasLane(
      lg: LaneGraph, contexts: seq<set<int>>, complete: seq<bool>, path: seq<nat>, z: nat, y: nat, t: int)
    requires IsSettled(lg, contexts, complete, false) && SolvesEquations(lg, contexts, complete)
    requires IsLane(lg, path, z, y) && z < |lg.og| && complete[z] && Contributes(lg, y, t)
    ensures t in contexts[z]
    decreases |path|
  {
    if |path| == 1 {
      if t !in lg.base[y] {
        var x: nat :| HasEdge(lg.og, y, x) && t != NULL && t in lg.first[x];
        assert SolvesAt(lg, contexts, z, x);
      }
    } else {
      FirstStep(lg, path, z, y);
      assert Continues(lg, z, path[1]);
      SolutionHasLane(lg, contexts, complete, path[1..], path[1], y, t);
      assert SolvesAt(lg, contexts, z, path[1]);
    }
  }

  lemma StartIsReady(
      lg: LaneGraph, contexts: seq<set<int>>, complete: seq<bool>, zj: nat, exact: bool)
    requires IsSettled(lg, contexts, complete, exact) && zj < |lg.og| && !complete[zj]
    requires exact ==> !HasTangle(lg)
    ensures IsReady(lg, zj, Started(contexts, complete, zj), exact)
  {
    hide IsPusher;
    var st := Started(contexts, complete, zj);
    assert HasNoDoubles(st);
    assert Marks(st.lane, 1) == Marks(st.lane, 0) == 0;
    assert st.lane[0] == zj;
    assert ArePushers(lg, st, [], 0);
    assert lg.base[zj] == {};
  }

  lemma OverIsSettled(lg: LaneGraph, zj: nat, st: LaneState, exact: bool)
    requires IsOver(lg, zj, st, exact)
    ensures IsSettled(lg, st.contexts, st.complete, exact) && zj < |st.complete| && st.complete[zj]
  {
    assert forall z :: z in st.lane ==> z == zj;
  }

  /** The run from `zj` comes to this end. */
  ghost predicate RunEndsWith(
      lg: LaneGraph, sibs: seq<seq<nat>>, zj: nat, contexts: seq<set<int>>, complete: seq<bool>, outcome: Outcome,
      contexts': seq<set<int>>, complete': seq<bool>)
    requires zj < |complete|
  {
    exists n: nat ::
      var run := Turns(lg, sibs, zj, Tracing(Started(contexts, complete, zj)), n);
      if outcome.Done? then run.Ended? && run.st.contexts == contexts' && run.st.complete == complete'
      else run == Aborted(outcome)
  }

  /** One turn of the main loop: traces the top of the lane, and pops the lane if nothing leads on from it. */
  method Turn(
      ghost lg: LaneGraph, ghost exact: bool, zetaJ: nat, pip: ParserInProgress, og: ParserGraph,
      firstSets: seq<set<int>>, st: LaneState)
    returns (outcome: Outcome, st': LaneState, ended: bool)
    requires Describes(lg, pip, og, firstSets) && IsReady(lg, zetaJ, st, exact)
    ensures outcome.Done? ==> StillComplete(st.complete, st'.complete)
    ensures outcome.Done? && ended ==> IsOver(lg, zetaJ, st', exact)
    ensures outcome.Done? && !ended ==>
      && IsReady(lg, zetaJ, st', exact)
      && (Fresh(st') < Fresh(st) || (Fresh(st') == Fresh(st) && |st'.stack| < |st.stack|))
    ensures outcome.Ambiguous? ==> IsAmbiguous(lg)
    ensures outcome.CheckFailed? ==> HasSnare(lg)
    ensures outcome.CheckFailed? <==> TurnFailsCheck(lg, st)
    ensures Turned(lg, SiblingTable(pip), zetaJ, Tracing(st)) ==
      if !outcome.Done? then Aborted(outcome) else if ended then Ended(st') else Tracing(st')
  {
    hide IsReady, IsAllTraced, IsOver, Describes, TurnFailsCheck, Fresh, HasSnare, IsAmbiguous, Looped;
    ReadyHas(lg, zetaJ, pip, og, firstSets, st, exact);
    var testsFailed;
    ended := false;
    outcome, st', testsFailed := DoLoop(lg, zetaJ, exact, pip, og, firstSets, st);
    if outcome.Done? && !testsFailed {
      st', ended := PopLane(lg, zetaJ, exact, pip, og, firstSets, st');
    }
  }

  /** The main loop. */
  method TurnOn(
      ghost lg: LaneGraph, ghost exact: bool, zetaJ: nat, pip: ParserInProgress, og: ParserGraph,
      firstSets: seq<set<int>>, start: LaneState)
    returns (outcome: Outcome, st: LaneState, ghost n: nat)
    requires Describes(lg, pip, og, firstSets) && IsReady(lg, zetaJ, start, exact)
    ensures outcome.Done? ==> IsOver(lg, zetaJ, st, exact) && StillComplete(start.complete, st.complete)
    ensures outcome.Ambiguous? ==> IsAmbiguous(lg)
    ensures outcome.CheckFailed? ==> HasSnare(lg)
    ensures outcome.CheckFailed? <==> SomeTurnFails(lg, SiblingTable(pip), zetaJ, Tracing(start))
    ensures Turns(lg, SiblingTable(pip), zetaJ, Tracing(start), n)
      == if outcome.Done? then Ended(st) else Aborted(outcome)
  {
    hide IsReady, IsOver, Describes, Turned, TurnFailsCheck;
    ReadyHas(lg, zetaJ, pip, og, firstSets, start, exact);
    outcome, st, n := Done, start, 0;
    ghost var sibs := SiblingTable(pip);
    var ended := false;
    while !ended
      invariant outcome.Done? && StillComplete(start.complete, st.complete)
      invariant if ended then IsOver(lg, zetaJ, st, exact) else IsReady(lg, zetaJ, st, exact)
      invariant Turns(lg, sibs, zetaJ, Tracing(start), n) == if ended then Ended(st) else Tracing(st)
      invariant forall m: nat :: m < n ==> !FailsAfter(lg, sibs, zetaJ, Tracing(start), m)
      decreases !ended, Fresh(st), |st.stack|
    {
      n := n + 1;
      assert FailsAfter(lg, sibs, zetaJ, Tracing(start), n - 1) <==> TurnFailsCheck(lg, st);
      outcome, st, ended := Turn(lg, exact, zetaJ, pip, og, firstSets, st);
      if !outcome.Done? {
        break;
      }
    }
    OverFailsNoMore(lg, sibs, zetaJ, Tracing(start), n);
  }

  lemma {:induction false} OverFailsNoMore(lg: LaneGraph, sibs: seq<seq<nat>>, zj: nat, run: Run, n: nat)
    requires !Turns(lg, sibs, zj, run, n).Tracing?
    ensures forall m: nat :: n <= m ==> !FailsAfter(lg, sibs, zj, run, m)
  {
    forall m: nat | n <= m
      ensures !FailsAfter(lg, sibs, zj, run, m)
    {
      OverStays(lg, sibs, zj, run, n, m);
    }
  }

  /** Computes the contexts of the address `zetaJ`. */
  method ComputeContextSet(
      ghost lg: LaneGraph, ghost exact: bool, zetaJ: nat, contexts: seq<set<int>>, complete: seq<bool>,
      pip: ParserInProgress, og: ParserGraph, firstSets: seq<set<int>>)
    returns (outcome: Outcome, contexts': seq<set<int>>, complete': seq<bool>)
    requires Describes(lg, pip, og, firstSets) && zetaJ < |og|
    requires IsSettled(lg, contexts, complete, exact) && (exact ==> !HasTangle(lg))
    ensures outcome.Done? ==> IsSettled(lg, contexts', complete', exact) && complete'[zetaJ]
    ensures outcome.Done? ==> StillComplete(complete, complete')
    ensures outcome.Ambiguous? ==> IsAmbiguous(lg)
    ensures outcome.CheckFailed? ==> HasSnare(lg)
    ensures if complete[zetaJ] then outcome.Done? && contexts' == contexts && complete' == complete
            else RunEndsWith(lg, SiblingTable(pip), zetaJ, contexts, complete, outcome, contexts', complete')
    ensures outcome.CheckFailed? <==>
      !complete[zetaJ] && SomeTurnFails(lg, SiblingTable(pip), zetaJ, Tracing(Started(contexts, complete, zetaJ)))
  {
    outcome, contexts', complete' := Done, contexts, complete;
    if complete[zetaJ] {
      return;
    }
    var st := LaneState(contexts, complete, [zetaJ], seq(|complete|, _ => false)[zetaJ := true], []);
    StartIsReady(lg, contexts, complete, zetaJ, exact);
    ghost var n;
    outcome, st, n := TurnOn(lg, exact, zetaJ, pip, og, firstSets, st);
    if outcome.Done? {
      OverIsSettled(lg, zetaJ, st, exact);
      contexts', complete' := st.contexts, st.complete;
    }
  }
}
