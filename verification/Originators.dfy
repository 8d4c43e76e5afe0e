/** State-configs and the originator graph (`form_state_configs`, `make_originator_graph`): for each
    config of each state, the configs whose expansion gave rise to it. */
module Originators {
  import opened Containers
  import opened Grammars
  import opened Lr0

  /** One config of one state; state-configs are referred to by address. */
  datatype StateConfig = StateConfig(state: nat, configInState: nat)

  datatype ParserInProgress = ParserInProgress(
    g: Grammar, cs: Configs, states: seq<State>, scs: seq<StateConfig>, states2scs: ParserGraph)
  {
    ghost predicate Valid() {
      && g.HasAccept() && AreConfigs(g, cs)
      && (forall s :: 0 <= s < |states| ==> StrictlyIncreasing(states[s].configs) && AreIndices(cs, states[s].configs))
      && AddressesMatch(states, scs, states2scs)
    }

    predicate IsAddress(z: int) {
      && 0 <= z < |scs| && scs[z].state < |states|
      && scs[z].configInState < |states[scs[z].state].configs|
    }

    /** The config at address `z`. */
    function ConfigAt(z: nat): int
      requires IsAddress(z)
    {
      states[scs[z].state].configs[scs[z].configInState]
    }
  }

  ghost predicate AddressesMatch(states: seq<State>, scs: seq<StateConfig>, states2scs: ParserGraph) {
    && |states2scs| == |states|
    && (forall s :: 0 <= s < |states| ==> |states2scs[s]| == |states[s].configs|)
    && (forall s, k :: 0 <= s < |states| && 0 <= k < |states[s].configs| ==>
          states2scs[s][k] < |scs| && scs[states2scs[s][k]] == StateConfig(s, k))
    && (forall z :: 0 <= z < |scs| ==>
          && scs[z].state < |states| && scs[z].configInState < |states[scs[z].state].configs|
          && states2scs[scs[z].state][scs[z].configInState] == z)
  }

  /** The number of configs in the states before `s`. */
  ghost function TotalBefore(states: seq<State>, s: nat): nat
    requires s <= |states|
  {
    if s == 0 then 0 else TotalBefore(states, s - 1) + |states[s - 1].configs|
  }

  lemma {:induction false} TotalIsMonotone(states: seq<State>, s: nat, t: nat)
    requires s < t <= |states|
    ensures TotalBefore(states, s) + |states[s].configs| <= TotalBefore(states, t)
    decreases t
  {
    if s < t - 1 {
      TotalIsMonotone(states, s, t - 1);
    }
  }

  ghost predicate IsNumbered(states: seq<State>, sc: StateConfig, z: int) {
    && sc.state < |states| && sc.configInState < |states[sc.state].configs|
    && z == TotalBefore(states, sc.state) + sc.configInState
  }

  method FormStateConfigs(states: seq<State>) returns (scs: seq<StateConfig>)
    ensures |scs| == TotalBefore(states, |states|)
    ensures forall z :: 0 <= z < |scs| ==> IsNumbered(states, scs[z], z)
  {
    scs := [];
    for i := 0 to |states|
      invariant |scs| == TotalBefore(states, i)
      invariant forall z :: 0 <= z < |scs| ==> IsNumbered(states, scs[z], z)
    {
      for j := 0 to |states[i].configs|
        invariant |scs| == TotalBefore(states, i) + j
        invariant forall z :: 0 <= z < |scs| ==> IsNumbered(states, scs[z], z)
      {
        scs := scs + [StateConfig(i, j)];
      }
    }
  }

  /** How many configs of state `s` are among the first `n` addresses. */
  ghost function Filled(states: seq<State>, s: nat, n: nat): int
    requires s < |states|
  {
    var before, size := TotalBefore(states, s), |states[s].configs|;
    if n <= before then 0 else if before + size <= n then size else n - before
  }

  lemma AddressIsFound(states: seq<State>, scs: seq<StateConfig>, s: nat, k: nat)
    requires |scs| == TotalBefore(states, |states|)
    requires forall z :: 0 <= z < |scs| ==> IsNumbered(states, scs[z], z)
    requires s < |states| && k < |states[s].configs|
    ensures TotalBefore(states, s) + k < |scs|
    ensures scs[TotalBefore(states, s) + k] == StateConfig(s, k)
  {
    TotalIsMonotone(states, s, |states|);
    var z := TotalBefore(states, s) + k;
    var t := scs[z].state;
    assert IsNumbered(states, scs[z], z);
    if s < t {
      TotalIsMonotone(states, s, t);
    } else if t < s {
      TotalIsMonotone(states, t, s);
    }
  }

  method FormStatesToStateConfigs(scs: seq<StateConfig>, states: seq<State>) returns (states2scs: ParserGraph)
    requires |scs| == TotalBefore(states, |states|)
    requires forall z :: 0 <= z < |scs| ==> IsNumbered(states, scs[z], z)
    ensures AddressesMatch(states, scs, states2scs)
  {
    states2scs := EmptyGraph(|states|);
    for i := 0 to |scs|
      invariant |states2scs| == |states|
      invariant forall s :: 0 <= s < |states| ==> |states2scs[s]| == Filled(states, s, i)
      invariant forall s, k :: 0 <= s < |states| && 0 <= k < |states2scs[s]| ==>
        states2scs[s][k] == TotalBefore(states, s) + k
    {
      var sc := scs[i];
      forall s | 0 <= s < |states| && s != sc.state
        ensures Filled(states, s, i + 1) == Filled(states, s, i)
      {
        TotalIsMonotone(states, if s < sc.state then s else sc.state, if s < sc.state then sc.state else s);
      }
      states2scs := states2scs[sc.state := states2scs[sc.state] + [i]];
    }
    FilledGraphMatches(states, scs, states2scs);
  }

  lemma {:induction false} FilledGraphMatches(states: seq<State>, scs: seq<StateConfig>, states2scs: ParserGraph)
    requires |scs| == TotalBefore(states, |states|)
    requires forall z :: 0 <= z < |scs| ==> IsNumbered(states, scs[z], z)
    requires |states2scs| == |states|
    requires forall s :: 0 <= s < |states| ==> |states2scs[s]| == Filled(states, s, |scs|)
    requires forall s, k :: 0 <= s < |states| && 0 <= k < |states2scs[s]| ==>
      states2scs[s][k] == TotalBefore(states, s) + k
    ensures AddressesMatch(states, scs, states2scs)
  {
    hide TotalBefore;
    forall s | 0 <= s < |states|
      ensures |states2scs[s]| == |states[s].configs|
    {
      TotalIsMonotone(states, s, |states|);
    }
    forall s, k | 0 <= s < |states| && 0 <= k < |states[s].configs|
      ensures 0 <= states2scs[s][k] < |scs| && scs[states2scs[s][k]] == StateConfig(s, k)
    {
      AddressIsFound(states, scs, s, k);
      assert states2scs[s][k] == TotalBefore(states, s) + k;
    }
    forall z | 0 <= z < |scs|
      ensures scs[z].state < |states| && scs[z].configInState < |states[scs[z].state].configs|
      ensures states2scs[scs[z].state][scs[z].configInState] == z
    {
      assert IsNumbered(states, scs[z], z);
    }
  }

  // ----- predecessors -----

  /** Both configs are in one state, and `w` expects the left-hand side of `z`. The dot of `z` may be
      anywhere. */
  predicate IsImmediatePredecessor(pip: ParserInProgress, z: nat, w: nat) {
    && pip.IsAddress(z) && pip.IsAddress(w) && pip.scs[z].state == pip.scs[w].state
    && IsLhs(pip, z, SymbolAfterDot(pip.g, pip.cs, pip.ConfigAt(w)))
  }

  predicate IsLhs(pip: ParserInProgress, z: nat, symbol: int)
    requires pip.IsAddress(z)
  {
    var c := pip.ConfigAt(z);
    0 <= c < |pip.cs| && pip.cs[c].production < |pip.g.productions| && Lhs(pip.g, pip.cs, c) == symbol
  }

  /** A transition of the state of `w` leads to the state of `z`, and moves the dot of `w` to that of `z`. */
  predicate IsTransitionPredecessor(pip: ParserInProgress, z: nat, w: nat) {
    && pip.IsAddress(z) && pip.IsAddress(w)
    && IsAdvance(pip, pip.ConfigAt(w), pip.ConfigAt(z))
    && HasShift(pip.states[pip.scs[w].state], SymbolAfterDot(pip.g, pip.cs, pip.ConfigAt(w)), pip.scs[z].state)
  }

  /** Config `d` is config `c` with the dot one place further. */
  predicate IsAdvance(pip: ParserInProgress, c: int, d: int) {
    && 0 <= SymbolAfterDot(pip.g, pip.cs, c) && 0 <= d < |pip.cs|
    && pip.cs[d] == Config(pip.cs[c].production, pip.cs[c].dot + 1)
  }

  method MakeImmediatePredecessorGraph(pip: ParserInProgress) returns (out: ParserGraph)
    requires pip.Valid()
    ensures |out| == |pip.scs|
    ensures forall z: nat, w: nat :: HasEdge(out, z, w) <==> IsImmediatePredecessor(pip, z, w)
  {
    out := EmptyGraph(|pip.scs|);
    for s := 0 to |pip.states|
      invariant |out| == |pip.scs|
      invariant forall z: nat, w: nat ::
        HasEdge(out, z, w) <==> IsImmediatePredecessor(pip, z, w) && pip.scs[w].state < s
    {
      var configs := pip.states[s].configs;
      for i := 0 to |configs|
        invariant |out| == |pip.scs|
        invariant forall z: nat, w: nat ::
          HasEdge(out, z, w) <==>
            && IsImmediatePredecessor(pip, z, w)
            && (pip.scs[w].state < s || (pip.scs[w].state == s && pip.scs[w].configInState < i))
      {
        out := AddImmediatePredecessor(pip, out, s, i);
      }
    }
  }

  /** Adds the edges to config `i` of state `s`. */
  method AddImmediatePredecessor(pip: ParserInProgress, g: ParserGraph, s: nat, i: nat) returns (out: ParserGraph)
    requires pip.Valid() && |g| == |pip.scs| && s < |pip.states| && i < |pip.states[s].configs|
    ensures |out| == |g|
    ensures forall z: nat, w: nat ::
      HasEdge(out, z, w) <==>
        HasEdge(g, z, w) || (w == pip.states2scs[s][i] && IsImmediatePredecessor(pip, z, w))
  {
    out := g;
    var configs := pip.states[s].configs;
    var c := configs[i];
    ghost var at := pip.states2scs[s][i];
    if pip.cs[c].dot == |Rhs(pip.g, pip.cs, c)| {
      return;
    }
    var symbol := Rhs(pip.g, pip.cs, c)[pip.cs[c].dot];
    if pip.g.IsTerminal(symbol) {
      return;
    }
    for j := 0 to |configs|
      invariant |out| == |g|
      invariant forall z: nat, w: nat ::
        HasEdge(out, z, w) <==>
          HasEdge(g, z, w) || (w == at && IsImmediatePredecessor(pip, z, w) && pip.scs[z].configInState < j)
    {
      if Lhs(pip.g, pip.cs, configs[j]) == symbol {
        out := AddEdge(out, pip.states2scs[s][j], pip.states2scs[s][i]);
      }
    }
  }

  /** Every transition is on one symbol and leads to a state. */
  ghost predicate ShiftsAreWellFormed(states: seq<State>) {
    forall s, k :: 0 <= s < |states| && 0 <= k < |states[s].actions| && states[s].actions[k].action.Shift? ==>
      |states[s].actions[k].context| == 1 && states[s].actions[k].action.nextState < |states|
  }

  method FindTransitionPredecessors(pip: ParserInProgress) returns (out: ParserGraph)
    requires pip.Valid() && ShiftsAreWellFormed(pip.states)
    ensures |out| == |pip.scs|
    ensures forall z: nat, w: nat :: HasEdge(out, z, w) <==> IsTransitionPredecessor(pip, z, w)
  {
    out := EmptyGraph(|pip.scs|);
    for s := 0 to |pip.states|
      invariant |out| == |pip.scs|
      invariant forall z: nat, w: nat ::
        HasEdge(out, z, w) <==> IsTransitionPredecessor(pip, z, w) && pip.scs[w].state < s
    {
      for k := 0 to |pip.states[s].actions|
        invariant |out| == |pip.scs|
        invariant forall z: nat, w: nat ::
          HasEdge(out, z, w) <==>
            || (IsTransitionPredecessor(pip, z, w) && pip.scs[w].state < s)
            || (exists l :: 0 <= l < k && IsPredecessorBy(pip, s, l, z, w))
      {
        if pip.states[s].actions[k].action.Shift? {
          out := AddTransitionPredecessors(pip, out, s, k);
        }
      }
      forall z: nat, w: nat
        ensures IsTransitionPredecessor(pip, z, w) && pip.scs[w].state == s <==>
          exists l :: 0 <= l < |pip.states[s].actions| && IsPredecessorBy(pip, s, l, z, w)
      {
        if IsTransitionPredecessor(pip, z, w) && pip.scs[w].state == s {
          var shift := ActionInProgress(
            Shift(pip.scs[z].state), {SymbolAfterDot(pip.g, pip.cs, pip.ConfigAt(w))});
          var l :| 0 <= l < |pip.states[s].actions| && pip.states[s].actions[l] == shift;
          assert IsPredecessorBy(pip, s, l, z, w);
        }
      }
    }
  }

  /** `w` is a transition predecessor of `z` because of action `k` of state `s`. */
  predicate IsPredecessorBy(pip: ParserInProgress, s: nat, k: nat, z: nat, w: nat) {
    && pip.IsAddress(z) && pip.IsAddress(w) && pip.scs[w].state == s
    && k < |pip.states[s].actions|
    && IsAdvance(pip, pip.ConfigAt(w), pip.ConfigAt(z))
    && pip.states[s].actions[k]
       == ActionInProgress(Shift(pip.scs[z].state), {SymbolAfterDot(pip.g, pip.cs, pip.ConfigAt(w))})
  }

  /** Adds the edges that action `k` of state `s` gives rise to. */
  method AddTransitionPredecessors(pip: ParserInProgress, g: ParserGraph, s: nat, k: nat) returns (out: ParserGraph)
    requires pip.Valid() && |g| == |pip.scs| && s < |pip.states| && k < |pip.states[s].actions|
    requires pip.states[s].actions[k].action.Shift? && pip.states[s].actions[k].action.nextState < |pip.states|
    requires |pip.states[s].actions[k].context| == 1
    ensures |out| == |g|
    ensures forall z: nat, w: nat ::
      HasEdge(out, z, w) <==> HasEdge(g, z, w) || IsPredecessorBy(pip, s, k, z, w)
  {
    out := g;
    var action := pip.states[s].actions[k];
    HasElement(action.context);
    var symbol :| symbol in action.context;
    OneSymbol(action.context, symbol);
    var t := action.action.nextState;
    for i := 0 to |pip.states[s].configs|
      invariant |out| == |g|
      invariant forall z: nat, w: nat ::
        HasEdge(out, z, w) <==>
          HasEdge(g, z, w) || (IsPredecessorBy(pip, s, k, z, w) && pip.scs[w].configInState < i)
    {
      for j := 0 to |pip.states[t].configs|
        invariant |out| == |g|
        invariant forall z: nat, w: nat ::
          HasEdge(out, z, w) <==>
            || HasEdge(g, z, w)
            || (IsPredecessorBy(pip, s, k, z, w)
                && (pip.scs[w].configInState < i
                    || (pip.scs[w].configInState == i && pip.scs[z].configInState < j)))
      {
        var c, d := pip.states[s].configs[i], pip.states[t].configs[j];
        if IsAdvance(pip, c, d) && SymbolAfterDot(pip.g, pip.cs, c) == symbol {
          out := AddEdge(out, pip.states2scs[t][j], pip.states2scs[s][i]);
        }
      }
    }
  }

  lemma OneSymbol(context: set<int>, symbol: int)
    requires |context| == 1 && symbol in context
    ensures context == {symbol}
  {
    var rest := context - {symbol};
    assert |rest| == 0;
    assert context == rest + {symbol};
  }

  // ----- originators -----

  /** `path` goes backwards along transitions from `z` to `y`. */
  ghost predicate IsTransitionPath(pip: ParserInProgress, path: seq<nat>, z: nat, y: nat) {
    && path != [] && path[0] == z && path[|path| - 1] == y
    && forall i {:trigger IsPathStep(pip, path, i)} :: IsPathStep(pip, path, i)
  }

  ghost predicate IsPathStep(pip: ParserInProgress, path: seq<nat>, i: int) {
    0 <= i < |path| - 1 ==> IsTransitionPredecessor(pip, path[i], path[i + 1])
  }

  lemma FirstPathStep(pip: ParserInProgress, path: seq<nat>, z: nat, y: nat)
    requires IsTransitionPath(pip, path, z, y) && 1 < |path|
    ensures IsTransitionPredecessor(pip, z, path[1]) && IsTransitionPath(pip, path[1..], path[1], y)
  {
    assert IsPathStep(pip, path, 0);
    var rest := path[1..];
    forall i
      ensures IsPathStep(pip, rest, i)
    {
      assert IsPathStep(pip, path, i + 1);
    }
  }

  lemma LastPathStep(pip: ParserInProgress, path: seq<nat>, z: nat, y: nat)
    requires IsTransitionPath(pip, path, z, y) && 1 < |path|
    ensures IsTransitionPredecessor(pip, path[|path| - 2], y)
    ensures IsTransitionPath(pip, path[..|path| - 1], z, path[|path| - 2])
  {
    assert IsPathStep(pip, path, |path| - 2);
    var front := path[..|path| - 1];
    forall i
      ensures IsPathStep(pip, front, i)
    {
      assert IsPathStep(pip, path, i);
    }
  }

  ghost predicate ComesFrom(pip: ParserInProgress, z: nat, y: nat) {
    exists path :: IsTransitionPath(pip, path, z, y)
  }

  /** `w` is an immediate predecessor of `z` or of a config `z` comes from along transitions. */
  ghost predicate IsOriginator(pip: ParserInProgress, z: nat, w: nat) {
    exists y: nat :: ComesFrom(pip, z, y) && IsImmediatePredecessor(pip, y, w)
  }

  lemma ComesFromItself(pip: ParserInProgress, z: nat)
    ensures ComesFrom(pip, z, z)
  {
    assert IsTransitionPath(pip, [z], z, z);
  }

  lemma ComesFromFurther(pip: ParserInProgress, z: nat, y: nat, x: nat)
    requires ComesFrom(pip, z, y) && IsTransitionPredecessor(pip, y, x)
    ensures ComesFrom(pip, z, x)
  {
    var path :| IsTransitionPath(pip, path, z, y);
    var longer := path + [x];
    forall i
      ensures IsPathStep(pip, longer, i)
    {
      assert IsPathStep(pip, path, i);
    }
    assert IsTransitionPath(pip, longer, z, x);
  }

  /** A set that holds `z` and is closed under transition predecessors holds all `z` comes from. */
  lemma ClosedSetHoldsPath(pip: ParserInProgress, found: set<int>, path: seq<nat>, z: nat, y: nat)
    requires z in found && IsTransitionPath(pip, path, z, y)
    requires forall a: nat, b: nat :: a in found && IsTransitionPredecessor(pip, a, b) ==> b in found
    ensures y in found
    decreases |path|
  {
    if |path| > 1 {
      LastPathStep(pip, path, z, y);
      ClosedSetHoldsPath(pip, found, path[..|path| - 1], z, path[|path| - 2]);
    }
  }

  ghost predicate IsOriginatorGraph(pip: ParserInProgress, og: ParserGraph) {
    && |og| == |pip.scs|
    && (forall z: nat, w: nat :: z < |og| ==> (HasEdge(og, z, w) <==> IsOriginator(pip, z, w)))
    && (forall z :: 0 <= z < |og| ==> StrictlyIncreasing(og[z]))
  }

  /** Breadth-first search along the transition predecessors of `z`, then one hop to the
      immediate predecessors. */
  method FindOriginators(pip: ParserInProgress, ipg: ParserGraph, tpg: ParserGraph, z: nat)
    returns (originators: set<int>)
    requires pip.Valid() && z < |pip.scs| && |ipg| == |tpg| == |pip.scs|
    requires forall a: nat, b: nat :: HasEdge(ipg, a, b) <==> IsImmediatePredecessor(pip, a, b)
    requires forall a: nat, b: nat :: HasEdge(tpg, a, b) <==> IsTransitionPredecessor(pip, a, b)
    ensures forall w: int :: w in originators <==> 0 <= w && IsOriginator(pip, z, w)
  {
    originators := {};
    var tpq: seq<nat> := [z];
    var tps: set<int> := {z};
    ComesFromItself(pip, z);
    while tpq != []
      invariant z in tps && tps <= Indices(|pip.scs|)
      invariant forall y :: y in tpq ==> y in tps
      invariant forall y: int :: y in tps ==> 0 <= y && ComesFrom(pip, z, y)
      invariant forall a: nat, b: nat ::
        a in tps && a !in tpq && IsTransitionPredecessor(pip, a, b) ==> b in tps
      invariant forall w: int :: w in originators ==> 0 <= w && IsOriginator(pip, z, w)
      invariant forall a: nat, b: nat ::
        a in tps && a !in tpq && IsImmediatePredecessor(pip, a, b) ==> b in originators
      decreases Indices(|pip.scs|) - tps, |tpq|
    {
      var tpp, rest := tpq[0], tpq[1..];
      assert forall y :: y in tpq <==> y == tpp || y in rest;
      assert tpp in tps && tpp in Indices(|pip.scs|);
      tps, tpq := AddPredecessors(pip, tpg, z, tpp, tps, rest);
      originators := AddOriginators(pip, ipg, z, tpp, originators);
    }
    forall w: nat | IsOriginator(pip, z, w)
      ensures w in originators
    {
      var y: nat :| ComesFrom(pip, z, y) && IsImmediatePredecessor(pip, y, w);
      var path :| IsTransitionPath(pip, path, z, y);
      ClosedSetHoldsPath(pip, tps, path, z, y);
    }
  }

  method AddPredecessors(pip: ParserInProgress, tpg: ParserGraph, ghost z: nat, tpp: nat,
                         tps: set<int>, tpq: seq<nat>)
    returns (tps': set<int>, tpq': seq<nat>)
    requires |tpg| == |pip.scs| && tpp < |pip.scs| && tps <= Indices(|pip.scs|)
    requires forall a: nat, b: nat :: HasEdge(tpg, a, b) <==> IsTransitionPredecessor(pip, a, b)
    requires ComesFrom(pip, z, tpp)
    requires forall y: int :: y in tps ==> 0 <= y && ComesFrom(pip, z, y)
    ensures tps <= tps' <= Indices(|pip.scs|)
    ensures forall b: nat :: IsTransitionPredecessor(pip, tpp, b) ==> b in tps'
    ensures forall y: int :: y in tps' ==> 0 <= y && ComesFrom(pip, z, y)
    ensures forall y: nat :: y in tpq' <==> y in tpq || (y in tps' && y !in tps)
    ensures tps' == tps ==> tpq' == tpq
  {
    tps', tpq' := tps, tpq;
    var edges := tpg[tpp];
    for i := 0 to |edges|
      invariant tps <= tps' <= Indices(|pip.scs|)
      invariant forall k :: 0 <= k < i ==> edges[k] in tps'
      invariant forall y: int :: y in tps' ==> 0 <= y && ComesFrom(pip, z, y)
      invariant forall y: nat :: y in tpq' <==> y in tpq || (y in tps' && y !in tps)
      invariant tps' == tps ==> tpq' == tpq
    {
      var tpc := edges[i];
      assert HasEdge(tpg, tpp, tpc);
      if tpc in tps' {
        continue;
      }
      ComesFromFurther(pip, z, tpp, tpc);
      tpq' := tpq' + [tpc];
      tps' := tps' + {tpc};
    }
    forall b: nat | IsTransitionPredecessor(pip, tpp, b)
      ensures b in tps'
    {
      assert HasEdge(tpg, tpp, b);
    }
  }

  method AddOriginators(pip: ParserInProgress, ipg: ParserGraph, ghost z: nat, tpp: nat, originators: set<int>)
    returns (more: set<int>)
    requires |ipg| == |pip.scs| && tpp < |pip.scs|
    requires forall a: nat, b: nat :: HasEdge(ipg, a, b) <==> IsImmediatePredecessor(pip, a, b)
    requires ComesFrom(pip, z, tpp)
    requires forall w: int :: w in originators ==> 0 <= w && IsOriginator(pip, z, w)
    ensures originators <= more
    ensures forall b: nat :: IsImmediatePredecessor(pip, tpp, b) ==> b in more
    ensures forall w: int :: w in more ==> 0 <= w && IsOriginator(pip, z, w)
  {
    more := originators;
    var edges := ipg[tpp];
    for i := 0 to |edges|
      invariant originators <= more
      invariant forall k :: 0 <= k < i ==> edges[k] in more
      invariant forall w: int :: w in more ==> 0 <= w && IsOriginator(pip, z, w)
    {
      assert HasEdge(ipg, tpp, edges[i]);
      more := more + {edges[i]};
    }
    forall b: nat | IsImmediatePredecessor(pip, tpp, b)
      ensures b in more
    {
      assert HasEdge(ipg, tpp, b);
    }
  }

  method MakeOriginatorGraph(pip: ParserInProgress) returns (og: ParserGraph)
    requires pip.Valid() && ShiftsAreWellFormed(pip.states)
    ensures IsOriginatorGraph(pip, og)
  {
    og := EmptyGraph(|pip.scs|);
    var ipg := MakeImmediatePredecessorGraph(pip);
    var tpg := FindTransitionPredecessors(pip);
    for z := 0 to |pip.scs|
      invariant |og| == |pip.scs|
      invariant forall a: nat, w: nat :: a < z ==> (HasEdge(og, a, w) <==> IsOriginator(pip, a, w))
      invariant forall a :: 0 <= a < |og| ==> StrictlyIncreasing(og[a])
    {
      var originators := FindOriginators(pip, ipg, tpg, z);
      var v := ToVector(originators);
      forall k | 0 <= k < |v|
        ensures 0 <= v[k]
      {
        assert v[k] in v;
      }
      var edges: seq<nat> := v;
      og := og[z := edges];
    }
  }

  // ----- how the graph differs from the LALR(1) originators -----

  ghost predicate DotAtStart(pip: ParserInProgress, z: nat) {
    pip.IsAddress(z) && 0 <= pip.ConfigAt(z) < |pip.cs| && pip.cs[pip.ConfigAt(z)].dot == 0
  }

  /** The hop to an immediate predecessor is taken only once the dot is back at the start. */
  ghost predicate IsLalrOriginator(pip: ParserInProgress, z: nat, w: nat) {
    exists y: nat :: ComesFrom(pip, z, y) && DotAtStart(pip, y) && IsImmediatePredecessor(pip, y, w)
  }

  ghost predicate OriginatorsAreLalr(pip: ParserInProgress) {
    forall z: nat, w: nat :: IsOriginator(pip, z, w) <==> IsLalrOriginator(pip, z, w)
  }

  /** Reading, from the state of `z`, what the dot of `z` has passed leads back to that state. */
  ghost predicate LoopsBack(pip: ParserInProgress, z: nat) {
    exists y: nat ::
      && ComesFrom(pip, z, y) && pip.IsAddress(z) && DotAtStart(pip, y)
      && pip.scs[y].state == pip.scs[z].state
  }

  lemma PathsJoin(pip: ParserInProgress, z: nat, y: nat, x: nat)
    requires ComesFrom(pip, z, y) && ComesFrom(pip, y, x)
    ensures ComesFrom(pip, z, x)
  {
    var p :| IsTransitionPath(pip, p, z, y);
    var q :| IsTransitionPath(pip, q, y, x);
    var joined := p + q[1..];
    forall i
      ensures IsPathStep(pip, joined, i)
    {
      assert IsPathStep(pip, p, i) && IsPathStep(pip, q, i + 1 - |p|);
      if |p| - 1 <= i < |joined| - 1 {
        assert joined[i] == q[i + 1 - |p|] && joined[i + 1] == q[i + 2 - |p|];
      }
    }
    assert IsTransitionPath(pip, joined, z, x);
  }

  /** Going back along transitions stays in one production. */
  lemma PathKeepsProduction(pip: ParserInProgress, path: seq<nat>, z: nat, y: nat)
    requires IsTransitionPath(pip, path, z, y) && pip.IsAddress(z) && 0 <= pip.ConfigAt(z) < |pip.cs|
    ensures pip.IsAddress(y) && 0 <= pip.ConfigAt(y) < |pip.cs|
    ensures pip.cs[pip.ConfigAt(y)].production == pip.cs[pip.ConfigAt(z)].production
    decreases |path|
  {
    if |path| > 1 {
      FirstPathStep(pip, path, z, y);
      PathKeepsProduction(pip, path[1..], path[1], y);
    }
  }

  /** No LALR(1) originator is missed. */
  lemma LalrOriginatorsAreOriginators(pip: ParserInProgress, z: nat, w: nat)
    requires IsLalrOriginator(pip, z, w)
    ensures IsOriginator(pip, z, w)
  {
  }

  lemma LalrMeansLoopingBack(pip: ParserInProgress, z: nat, w: nat)
    requires OriginatorsAreLalr(pip) && IsImmediatePredecessor(pip, z, w)
    ensures LoopsBack(pip, z)
  {
    ComesFromItself(pip, z);
    assert IsOriginator(pip, z, w);
    var y: nat :| ComesFrom(pip, z, y) && DotAtStart(pip, y) && IsImmediatePredecessor(pip, y, w);
  }

  lemma LoopingBackMeansLalr(pip: ParserInProgress, z: nat, y: nat, w: nat)
    requires ComesFrom(pip, z, y) && IsImmediatePredecessor(pip, y, w) && LoopsBack(pip, y)
    ensures IsLalrOriginator(pip, z, w)
  {
    var x: nat :| ComesFrom(pip, y, x) && DotAtStart(pip, x) && pip.scs[x].state == pip.scs[y].state;
    var path :| IsTransitionPath(pip, path, y, x);
    PathKeepsProduction(pip, path, y, x);
    PathsJoin(pip, z, y, x);
  }

  /** The graph is the LALR(1) one exactly when every config with its dot moved on, in a state that
      expects its left-hand side, has a state that loops back over what its dot has passed. */
  lemma WhenOriginatorsAreLalr(pip: ParserInProgress)
    ensures OriginatorsAreLalr(pip) <==>
      forall z: nat, w: nat :: IsImmediatePredecessor(pip, z, w) ==> LoopsBack(pip, z)
  {
    if OriginatorsAreLalr(pip) {
      forall z: nat, w: nat | IsImmediatePredecessor(pip, z, w)
        ensures LoopsBack(pip, z)
      {
        LalrMeansLoopingBack(pip, z, w);
      }
    }
    if forall z: nat, w: nat :: IsImmediatePredecessor(pip, z, w) ==> LoopsBack(pip, z) {
      forall z: nat, w: nat | IsOriginator(pip, z, w)
        ensures IsLalrOriginator(pip, z, w)
      {
        var y: nat :| ComesFrom(pip, z, y) && IsImmediatePredecessor(pip, y, w);
        LoopingBackMeansLalr(pip, z, y, w);
      }
    }
  }
}
