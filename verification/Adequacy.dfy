/** Adequacy of states (`determine_adequate_states`): no terminal allows two actions. */
module Adequacy {
  import opened Containers
  import opened Grammars
  import opened Lr0
  import opened Originators

  ghost predicate HasWellFormedContext(g: Grammar, a: ActionInProgress) {
    if a.action.Shift? then exists x :: 0 <= x && a.context == {x} else a.context <= Terminals(g)
  }

  ghost predicate HasWellFormedContexts(g: Grammar, state: State) {
    forall k :: 0 <= k < |state.actions| ==> HasWellFormedContext(g, state.actions[k])
  }

  /** Some terminal allows both actions. */
  ghost predicate Clash(g: Grammar, a: ActionInProgress, b: ActionInProgress) {
    exists t :: g.IsTerminal(t) && t in a.context && t in b.context
  }

  ghost predicate IsAdequate(g: Grammar, state: State) {
    forall k, l :: 0 <= k < l < |state.actions| ==> !Clash(g, state.actions[k], state.actions[l])
  }

  method Intersects(a: set<int>, b: set<int>) returns (found: bool)
    ensures found <==> exists t :: t in a && t in b
  {
    var rest := b;
    while rest != {}
      invariant rest <= b && forall t :: t in b && t !in rest ==> t !in a
      decreases rest
    {
      HasElement(rest);
      var x :| x in rest;
      if x in a {
        return true;
      }
      rest := rest - {x};
    }
    return false;
  }

  method IsNonterminalShift(g: Grammar, a: ActionInProgress) returns (yes: bool)
    requires HasWellFormedContext(g, a)
    ensures yes <==> a.action.Shift? && forall t :: t in a.context ==> !g.IsTerminal(t)
  {
    yes := false;
    if a.action.Shift? {
      ghost var x :| a.context == {x};
      assert x in a.context;
      var least := Least(a.context);
      yes := !g.IsTerminal(least);
    }
  }

  /** Only shifts on nonterminals are left out of the comparison; all other contexts hold terminals. */
  lemma OnlyTerminals(g: Grammar, a: ActionInProgress, t: int)
    requires HasWellFormedContext(g, a) && t in a.context
    requires !(a.action.Shift? && forall x :: x in a.context ==> !g.IsTerminal(x))
    ensures g.IsTerminal(t)
  {
  }

  method IsStateAdequate(g: Grammar, state: State) returns (adequate: bool)
    requires HasWellFormedContexts(g, state)
    ensures adequate <==> IsAdequate(g, state)
  {
    var actions := state.actions;
    for i := 0 to |actions|
      invariant forall k, l :: 0 <= k < i && k < l < |actions| ==> !Clash(g, actions[k], actions[l])
    {
      var skip := IsNonterminalShift(g, actions[i]);
      if skip {
        continue;
      }
      for j := i + 1 to |actions|
        invariant forall l :: i < l < j ==> !Clash(g, actions[i], actions[l])
      {
        skip := IsNonterminalShift(g, actions[j]);
        if skip {
          continue;
        }
        var found := Intersects(actions[j].context, actions[i].context);
        if found {
          ghost var t :| t in actions[j].context && t in actions[i].context;
          OnlyTerminals(g, actions[i], t);
          assert Clash(g, actions[i], actions[j]);
          return false;
        }
      }
    }
    return true;
  }

  method DetermineAdequateStates(g: Grammar, states: seq<State>) returns (out: seq<bool>)
    requires forall s :: 0 <= s < |states| ==> HasWellFormedContexts(g, states[s])
    ensures |out| == |states|
    ensures forall s :: 0 <= s < |states| ==> (out[s] <==> IsAdequate(g, states[s]))
  {
    out := [];
    for s := 0 to |states|
      invariant |out| == s
      invariant forall r :: 0 <= r < s ==> (out[r] <==> IsAdequate(g, states[r]))
    {
      var adequate := IsStateAdequate(g, states[s]);
      out := out + [adequate];
    }
  }

  // ----- the actions of the LR(0) machine -----

  /** The transitions of the LR(0) machine are on one symbol each and lead to states. */
  lemma MachineIsWellFormed(g: Grammar, cs: Configs, start: nat, states: seq<State>, s: nat)
    requires g.Valid() && IsLr0Machine(g, cs, start, states) && s < |states|
    ensures HasWellFormedContexts(g, states[s])
    ensures forall k :: 0 <= k < |states[s].actions| && states[s].actions[k].action.Shift? ==>
      |states[s].actions[k].context| == 1 && states[s].actions[k].action.nextState < |states|
  {
    var symbols, shifts := ShiftsOf(g, cs, start, states, s);
    var actions := states[s].actions;
    forall k | 0 <= k < |actions|
      ensures HasWellFormedContext(g, actions[k])
      ensures actions[k].action.Shift? ==> |actions[k].context| == 1 && actions[k].action.nextState < |states|
    {
      if k < |shifts| {
        assert actions[k] == shifts[k] && shifts[k].context == {symbols[k]};
        assert symbols[k] in Elements(symbols);
      } else {
        ReductionHasLr0Context(g, cs, start, states, s, k);
      }
    }
  }

  /** A reduction is in context before every terminal, or, if it accepts, before the end. */
  lemma ReductionHasLr0Context(
      g: Grammar, cs: Configs, start: nat, states: seq<State>, s: nat, k: nat)
    requires g.Valid() && IsLr0Machine(g, cs, start, states) && s < |states|
    requires k < |states[s].actions| && states[s].actions[k].action.Reduce?
    ensures states[s].actions[k].context ==
      if states[s].actions[k].action.production == g.AcceptProduction() then {g.EndTerminal()} else Terminals(g)
  {
    assert HasLr0Actions(g, cs, ItemsOf(states), states[s]);
    var shifts :| ShiftsAreComplete(g, cs, ItemsOf(states), Elements(states[s].configs), shifts)
      && states[s].actions == AllInLr0Context(g, shifts + Reductions(g, cs, states[s].configs));
    assert states[s].actions[k] == InLr0Context(g, (shifts + Reductions(g, cs, states[s].configs))[k]);
  }

  lemma ReductionsHaveConfigs(g: Grammar, cs: Configs, configs: seq<int>, a: ActionInProgress)
    returns (c: int)
    requires a in Reductions(g, cs, configs)
    ensures c in configs && IsComplete(g, cs, c) && a.action == Reduce(cs[c].production)
  {
    var last := configs[|configs| - 1];
    if a in Reductions(g, cs, configs[..|configs| - 1]) {
      c := ReductionsHaveConfigs(g, cs, configs[..|configs| - 1], a);
    } else {
      c := last;
    }
  }

  /** Address `z` is that of the complete config of state `s` that the reduction `a` is for. */
  predicate IsReductionOf(pip: ParserInProgress, s: nat, z: nat, a: ActionInProgress) {
    && a.action.Reduce? && pip.IsAddress(z) && pip.scs[z].state == s
    && IsComplete(pip.g, pip.cs, pip.ConfigAt(z))
    && pip.cs[pip.ConfigAt(z)].production == a.action.production
  }

  /** An action that reduces is there for a complete config of its production. */
  lemma ReductionIsOfConfig(g: Grammar, cs: Configs, items: seq<seq<int>>, state: State, k: nat) returns (c: int)
    requires HasLr0Actions(g, cs, items, state) && k < |state.actions| && state.actions[k].action.Reduce?
    ensures c in state.configs && IsComplete(g, cs, c) && state.actions[k].action == Reduce(cs[c].production)
  {
    hide Reductions, IsComplete, TransitionSymbols, StrictlyIncreasing;
    var shifts :| ShiftsAreComplete(g, cs, items, Elements(state.configs), shifts)
      && state.actions == AllInLr0Context(g, shifts + Reductions(g, cs, state.configs));
    var symbols :| AreShifts(g, cs, items, Elements(state.configs), symbols, shifts);
    var a := (shifts + Reductions(g, cs, state.configs))[k];
    assert state.actions[k] == InLr0Context(g, a);
    assert forall i :: 0 <= i < |shifts| ==> shifts[i].action.Shift?;
    c := ReductionsHaveConfigs(g, cs, state.configs, a);
  }

  lemma ReductionHasAddress(pip: ParserInProgress, start: nat, s: nat, k: nat) returns (z: nat)
    requires pip.Valid() && IsLr0Machine(pip.g, pip.cs, start, pip.states) && s < |pip.states|
    requires k < |pip.states[s].actions| && pip.states[s].actions[k].action.Reduce?
    ensures IsReductionOf(pip, s, z, pip.states[s].actions[k])
  {
    hide HasLr0Actions, IsComplete;
    var state := pip.states[s];
    var c := ReductionIsOfConfig(pip.g, pip.cs, ItemsOf(pip.states), state, k);
    var i :| 0 <= i < |state.configs| && state.configs[i] == c;
    z := pip.states2scs[s][i];
    assert pip.scs[z] == StateConfig(s, i);
  }

  lemma OneReductionAddress(pip: ParserInProgress, s: nat, z: nat, w: nat, a: ActionInProgress)
    requires pip.Valid() && IsReductionOf(pip, s, z, a) && IsReductionOf(pip, s, w, a)
    ensures z == w
  {
    var c, d := pip.ConfigAt(z), pip.ConfigAt(w);
    assert pip.cs[c] == pip.cs[d];
    assert c == d;
    var i, j := pip.scs[z].configInState, pip.scs[w].configInState;
    assert pip.states[s].configs[i] == pip.states[s].configs[j];
    assert i == j && pip.states2scs[s][i] == z;
  }
}
