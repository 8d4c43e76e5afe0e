/** The whole construction (`build_lalr1_parser`): it accepts a grammar only if no reduction that is
    possible by its contexts clashes with another action, wherever the contexts found are exact. */
module Lalr {
  import opened Containers
  import opened Grammars
  import opened FirstSets
  import opened Lr0
  import opened Originators
  import opened Lanes
  import opened Pushers
  import opened LaneRuns
  import opened LaneTracing
  import opened Lookaheads
  import opened Adequacy
  import opened Conflicts
  import opened FailedChecks
  import opened Snares

  /** The grammar needs no contexts, or is found to be LALR(1) or not, or lane tracing gives up. */
  datatype Verdict = IsLr0 | IsLalr1 | IsNotLalr1 | GaveUp(outcome: Outcome)

  // ----- contexts are sets of terminals -----

  lemma ContextsAreTerminals(
      lg: LaneGraph, pip: ParserInProgress, og: ParserGraph, firstSets: seq<set<int>>, start: nat, z: nat, t: int)
    requires IsSetUp(lg, pip, og, firstSets, start) && InContext(lg, z, t)
    ensures pip.g.IsTerminal(t)
  {
    var y: nat :| Reaches(lg, z, y) && y < |lg.og| && Contributes(lg, y, t);
    if t !in lg.base[y] {
      var x: nat :| HasEdge(lg.og, y, x) && t != NULL && t in lg.first[x];
      FirstOfFollow(lg, pip, og, firstSets, x, t);
    }
  }

  /** Nothing leads to an accepting config but its own expansion: its context is the end mark. */
  lemma AcceptingHasNoOriginator(pip: ParserInProgress, z: nat, w: nat)
    requires pip.Valid() && IsAccepting(pip, z)
    ensures !IsOriginator(pip, z, w)
  {
    if IsOriginator(pip, z, w) {
      var y: nat :| ComesFrom(pip, z, y) && IsImmediatePredecessor(pip, y, w);
      var path :| IsTransitionPath(pip, path, z, y);
      PathKeepsProduction(pip, path, z, y);
    }
  }

  lemma AcceptingContext(
      lg: LaneGraph, pip: ParserInProgress, og: ParserGraph, firstSets: seq<set<int>>, z: nat, t: int)
    requires Describes(lg, pip, og, firstSets) && IsAccepting(pip, z)
    ensures InContext(lg, z, t) <==> t == pip.g.EndTerminal()
  {
    forall w: nat
      ensures !HasEdge(og, z, w)
    {
      AcceptingHasNoOriginator(pip, z, w);
    }
    if InContext(lg, z, t) {
      var y: nat :| Reaches(lg, z, y) && y < |lg.og| && Contributes(lg, y, t);
      var path :| IsLane(lg, path, z, y);
      if |path| > 1 {
        FirstStep(lg, path, z, y);
      }
    }
    ReachesItself(lg, z);
    assert Contributes(lg, z, pip.g.EndTerminal());
  }

  // ----- the contexts of the actions -----

  /** The action with the contexts of the first `n` configs of its state, where those are complete. */
  ghost function WithContexts(
      pip: ParserInProgress, contexts: seq<set<int>>, complete: seq<bool>, s: nat, n: nat, a: ActionInProgress)
    : (b: ActionInProgress)
    requires pip.Valid() && |contexts| == |complete| == |pip.scs|
    requires s < |pip.states| && n <= |pip.states[s].configs|
    ensures b.action == a.action
  {
    if n == 0 then a
    else
      var before := WithContexts(pip, contexts, complete, s, n - 1, a);
      var z := pip.states2scs[s][n - 1];
      if complete[z] && IsReductionOf(pip, s, z, a) then before.(context := contexts[z]) else before
  }

  ghost function StateWithContexts(
      pip: ParserInProgress, contexts: seq<set<int>>, complete: seq<bool>, s: nat, n: nat): (state: State)
    requires pip.Valid() && |contexts| == |complete| == |pip.scs|
    requires s < |pip.states| && n <= |pip.states[s].configs|
    ensures state.configs == pip.states[s].configs && |state.actions| == |pip.states[s].actions|
    ensures forall k :: 0 <= k < |state.actions| ==>
      state.actions[k] == WithContexts(pip, contexts, complete, s, n, pip.states[s].actions[k])
  {
    State(pip.states[s].configs, seq(|pip.states[s].actions|, k requires 0 <= k < |pip.states[s].actions| =>
      WithContexts(pip, contexts, complete, s, n, pip.states[s].actions[k])))
  }

  /** Gives the reduction for config `i` of a state the contexts of its address. */
  method UpdateActions(
      pip: ParserInProgress, contexts: seq<set<int>>, ghost complete: seq<bool>, s: nat, i: nat,
      actions: seq<ActionInProgress>)
    returns (actions': seq<ActionInProgress>)
    requires pip.Valid() && |contexts| == |complete| == |pip.scs|
    requires s < |pip.states| && i < |pip.states[s].configs| && |actions| == |pip.states[s].actions|
    requires complete[pip.states2scs[s][i]] && IsComplete(pip.g, pip.cs, pip.states[s].configs[i])
    requires forall k :: 0 <= k < |actions| ==>
      actions[k] == WithContexts(pip, contexts, complete, s, i, pip.states[s].actions[k])
    ensures |actions'| == |actions|
    ensures forall k :: 0 <= k < |actions| ==>
      actions'[k] == WithContexts(pip, contexts, complete, s, i + 1, pip.states[s].actions[k])
  {
    actions' := actions;
    var z := pip.states2scs[s][i];
    var config := pip.cs[pip.states[s].configs[i]];
    assert pip.scs[z] == StateConfig(s, i);
    for k := 0 to |actions|
      invariant |actions'| == |actions|
      invariant forall j :: 0 <= j < |actions| ==>
        actions'[j] ==
          if j < k then WithContexts(pip, contexts, complete, s, i + 1, pip.states[s].actions[j]) else actions[j]
    {
      var action := actions'[k];
      if action.action.Reduce? && action.action.production == config.production {
        actions' := actions'[k := action.(context := contexts[z])];
      }
    }
  }

  /** The actions of a state with the contexts found. */
  method UpdateState(pip: ParserInProgress, contexts: seq<set<int>>, complete: seq<bool>, s: nat) returns (state: State)
    requires pip.Valid() && |contexts| == |complete| == |pip.scs| && s < |pip.states|
    ensures state == StateWithContexts(pip, contexts, complete, s, |pip.states[s].configs|)
  {
    var configs := pip.states[s].configs;
    var actions := pip.states[s].actions;
    for i := 0 to |configs|
      invariant |actions| == |pip.states[s].actions|
      invariant forall k :: 0 <= k < |actions| ==>
        actions[k] == WithContexts(pip, contexts, complete, s, i, pip.states[s].actions[k])
    {
      var z := pip.states2scs[s][i];
      assert pip.scs[z] == StateConfig(s, i);
      var config := pip.cs[configs[i]];
      if !complete[z] || config.dot != |pip.g.productions[config.production].rhs| {
        continue;
      }
      actions := UpdateActions(pip, contexts, complete, s, i, actions);
    }
    state := State(configs, actions);
  }

  /** A reduction gets the contexts of its own config, and no other. */
  lemma {:induction false} ContextIsItsOwn(
      pip: ParserInProgress, contexts: seq<set<int>>, complete: seq<bool>, s: nat, n: nat, a: ActionInProgress, z: nat)
    requires pip.Valid() && |contexts| == |complete| == |pip.scs|
    requires s < |pip.states| && n <= |pip.states[s].configs| && IsReductionOf(pip, s, z, a)
    ensures WithContexts(pip, contexts, complete, s, n, a).context ==
      if pip.scs[z].configInState < n && complete[z] then contexts[z] else a.context
  {
    if n > 0 {
      ContextIsItsOwn(pip, contexts, complete, s, n - 1, a, z);
      var w := pip.states2scs[s][n - 1];
      assert pip.scs[w] == StateConfig(s, n - 1);
      if IsReductionOf(pip, s, w, a) {
        OneReductionAddress(pip, s, z, w, a);
      }
    }
  }

  lemma {:induction false} ShiftKeepsContext(
      pip: ParserInProgress, contexts: seq<set<int>>, complete: seq<bool>, s: nat, n: nat, a: ActionInProgress)
    requires pip.Valid() && |contexts| == |complete| == |pip.scs|
    requires s < |pip.states| && n <= |pip.states[s].configs| && a.action.Shift?
    ensures WithContexts(pip, contexts, complete, s, n, a) == a
  {
    if n > 0 {
      ShiftKeepsContext(pip, contexts, complete, s, n - 1, a);
    }
  }

  // ----- the states with the contexts found -----

  /** With contexts that are all contexts, an action is in context only where it is possible or was so
      before. */
  lemma UpdatedActionIsPossible(
      lg: LaneGraph, pip: ParserInProgress, start: nat, contexts: seq<set<int>>, complete: seq<bool>, exact: bool,
      s: nat, k: nat, t: int)
    requires pip.Valid() && IsSettled(lg, contexts, complete, exact) && |lg.og| == |pip.scs|
    requires IsLr0Machine(pip.g, pip.cs, start, pip.states) && s < |pip.states| && k < |pip.states[s].actions|
    requires
      t in StateWithContexts(pip, contexts, complete, s, |pip.states[s].configs|).actions[k].context
    ensures IsPossible(lg, pip, s, pip.states[s].actions[k], t) || t in pip.states[s].actions[k].context
    ensures (forall z: nat :: IsReductionOf(pip, s, z, pip.states[s].actions[k]) ==> complete[z]) ==>
      IsPossible(lg, pip, s, pip.states[s].actions[k], t)
  {
    var a := pip.states[s].actions[k];
    if a.action.Shift? {
      ShiftKeepsContext(pip, contexts, complete, s, |pip.states[s].configs|, a);
    } else {
      var z := ReductionHasAddress(pip, start, s, k);
      ContextIsItsOwn(pip, contexts, complete, s, |pip.states[s].configs|, a, z);
    }
  }

  /** With exact contexts for the complete addresses, an action of which the address is complete is in
      context wherever it is possible. */
  lemma PossibleActionIsInContext(
      lg: LaneGraph, pip: ParserInProgress, contexts: seq<set<int>>, complete: seq<bool>, s: nat, k: nat, t: int)
    requires pip.Valid() && IsSettled(lg, contexts, complete, true) && |lg.og| == |pip.scs|
    requires s < |pip.states| && k < |pip.states[s].actions|
    requires IsPossible(lg, pip, s, pip.states[s].actions[k], t)
    requires forall z: nat :: IsReductionOf(pip, s, z, pip.states[s].actions[k]) ==> complete[z]
    ensures t in StateWithContexts(pip, contexts, complete, s, |pip.states[s].configs|).actions[k].context
  {
    var a := pip.states[s].actions[k];
    if a.action.Shift? {
      ShiftKeepsContext(pip, contexts, complete, s, |pip.states[s].configs|, a);
    } else {
      var z: nat :| IsReductionOf(pip, s, z, a) && InContext(lg, z, t);
      ContextIsItsOwn(pip, contexts, complete, s, |pip.states[s].configs|, a, z);
    }
  }

  /** What is possible is in LR(0) context. */
  lemma PossibleIsInLr0Context(
      lg: LaneGraph, pip: ParserInProgress, og: ParserGraph, firstSets: seq<set<int>>, start: nat, s: nat, k: nat,
      t: int)
    requires IsSetUp(lg, pip, og, firstSets, start) && s < |pip.states| && k < |pip.states[s].actions|
    requires IsPossible(lg, pip, s, pip.states[s].actions[k], t)
    ensures t in pip.states[s].actions[k].context
  {
    hide IsLr0Machine, InContext, Reaches;
    var a := pip.states[s].actions[k];
    if a.action.Reduce? {
      ReductionHasLr0Context(pip.g, pip.cs, start, pip.states, s, k);
      var z: nat :| IsReductionOf(pip, s, z, a) && InContext(lg, z, t);
      ContextsAreTerminals(lg, pip, og, firstSets, start, z, t);
      if IsAccepting(pip, z) {
        AcceptingContext(lg, pip, og, firstSets, z, t);
      }
    }
  }

  /** A state adequate without contexts has no conflict, and is adequate with any that are right. */
  lemma AdequateStateStaysSo(
      lg: LaneGraph, pip: ParserInProgress, og: ParserGraph, firstSets: seq<set<int>>, start: nat,
      contexts: seq<set<int>>, complete: seq<bool>, exact: bool, s: nat)
    requires IsSetUp(lg, pip, og, firstSets, start) && IsSettled(lg, contexts, complete, exact)
    requires s < |pip.states| && IsAdequate(pip.g, pip.states[s])
    ensures StateIsConflictFree(lg, pip, s)
    ensures IsAdequate(pip.g, StateWithContexts(pip, contexts, complete, s, |pip.states[s].configs|))
  {
    var actions := pip.states[s].actions;
    var state' := StateWithContexts(pip, contexts, complete, s, |pip.states[s].configs|);
    forall k: nat, t | k < |actions| && IsPossible(lg, pip, s, actions[k], t)
      ensures t in actions[k].context
    {
      PossibleIsInLr0Context(lg, pip, og, firstSets, start, s, k, t);
    }
    forall k: nat, t | k < |actions| && t in state'.actions[k].context
      ensures t in actions[k].context
    {
      UpdatedActionIsPossible(lg, pip, start, contexts, complete, exact, s, k, t);
    }
    assert forall k, l :: 0 <= k < l < |actions| ==> !Clash(pip.g, actions[k], actions[l]);
  }

  /** A state whose reductions all have contexts is adequate if it has no conflict; if those are exact,
      only then. */
  lemma FoundStateIsDecided(
      lg: LaneGraph, pip: ParserInProgress, og: ParserGraph, firstSets: seq<set<int>>, start: nat,
      contexts: seq<set<int>>, complete: seq<bool>, exact: bool, s: nat)
    requires IsSetUp(lg, pip, og, firstSets, start) && IsSettled(lg, contexts, complete, exact)
    requires s < |pip.states|
    requires forall k, z: nat ::
      0 <= k < |pip.states[s].actions| && IsReductionOf(pip, s, z, pip.states[s].actions[k]) ==> complete[z]
    ensures StateIsConflictFree(lg, pip, s) ==>
      IsAdequate(pip.g, StateWithContexts(pip, contexts, complete, s, |pip.states[s].configs|))
    ensures exact && IsAdequate(pip.g, StateWithContexts(pip, contexts, complete, s, |pip.states[s].configs|)) ==>
      StateIsConflictFree(lg, pip, s)
  {
    var actions := pip.states[s].actions;
    var state' := StateWithContexts(pip, contexts, complete, s, |pip.states[s].configs|);
    forall k: nat, t | k < |actions| && t in state'.actions[k].context
      ensures IsPossible(lg, pip, s, actions[k], t)
    {
      UpdatedActionIsPossible(lg, pip, start, contexts, complete, exact, s, k, t);
    }
    if exact {
      forall k: nat, t | k < |actions| && IsPossible(lg, pip, s, actions[k], t)
        ensures t in state'.actions[k].context
      {
        PossibleActionIsInContext(lg, pip, contexts, complete, s, k, t);
      }
    }
    if StateIsConflictFree(lg, pip, s) {
      forall k, l | 0 <= k < l < |actions|
        ensures !Clash(pip.g, state'.actions[k], state'.actions[l])
      {
        assert !MayClash(lg, pip, s, actions[k], actions[l]);
      }
    }
    if exact && IsAdequate(pip.g, state') {
      forall k, l | 0 <= k < l < |actions|
        ensures !MayClash(lg, pip, s, actions[k], actions[l])
      {
        assert !Clash(pip.g, state'.actions[k], state'.actions[l]);
      }
    }
  }

  // ----- the construction -----

  method BuildMachine(g: Grammar) returns (pip: ParserInProgress, ghost start: nat)
    requires g.HasAccept()
    ensures pip.g == g && pip.Valid() && IsLr0Machine(g, pip.cs, start, pip.states)
  {
    var cs := MakeConfigs(g);
    var lhs2cs := GetLeftHandSidesToStartConfigs(g, cs);
    var states, first := BuildLr0Parser(g, cs, lhs2cs);
    start := first;
    var scs := FormStateConfigs(states);
    var states2scs := FormStatesToStateConfigs(scs, states);
    pip := ParserInProgress(g, cs, states, scs, states2scs);
    forall s | 0 <= s < |states|
      ensures StrictlyIncreasing(states[s].configs) && AreIndices(cs, states[s].configs)
    {
      assert ItemsOf(states)[s] == states[s].configs;
    }
  }

  /** The accepting configs start out complete, with the end of the input as context. */
  ghost predicate AreInitial(pip: ParserInProgress, contexts: seq<set<int>>, complete: seq<bool>) {
    && |contexts| == |complete| == |pip.scs|
    && forall z: nat :: z < |pip.scs| ==>
      && complete[z] == IsAccepting(pip, z)
      && contexts[z] == if IsAccepting(pip, z) then {pip.g.EndTerminal()} else {}
  }

  method InitialContexts(pip: ParserInProgress) returns (contexts: seq<set<int>>, complete: seq<bool>)
    requires pip.Valid()
    ensures AreInitial(pip, contexts, complete)
  {
    contexts, complete := seq(|pip.scs|, _ => {}), seq(|pip.scs|, _ => false);
    for z := 0 to |pip.scs|
      invariant |contexts| == |complete| == |pip.scs|
      invariant forall w: nat :: w < |pip.scs| ==>
        && complete[w] == (w < z && IsAccepting(pip, w))
        && contexts[w] == if w < z && IsAccepting(pip, w) then {pip.g.EndTerminal()} else {}
    {
      if pip.cs[pip.ConfigAt(z)].production == pip.g.AcceptProduction() {
        complete := complete[z := true];
        contexts := contexts[z := contexts[z] + {pip.g.EndTerminal()}];
      }
    }
  }

  lemma FollowStringInRange(pip: ParserInProgress, z: nat)
    requires pip.Valid() && z < |pip.scs|
    ensures InRange(FollowString(pip, z), pip.g.nsymbols)
  {
  }

  /** The lane graph of the machine. */
  ghost function LaneGraphOf(pip: ParserInProgress, og: ParserGraph, firstSets: seq<set<int>>): (lg: LaneGraph)
    requires pip.Valid() && IsOriginatorGraph(pip, og) && |firstSets| == pip.g.nsymbols
    ensures Describes(lg, pip, og, firstSets)
  {
    LaneGraph(
      og,
      seq(|og|, z requires 0 <= z < |og| =>
        FollowStringInRange(pip, z); FirstOfString(FollowString(pip, z), firstSets)),
      seq(|og|, z requires 0 <= z < |og| => if IsAccepting(pip, z) then {pip.g.EndTerminal()} else {}))
  }

  lemma InitialContextsAreSettled(
      lg: LaneGraph, pip: ParserInProgress, og: ParserGraph, firstSets: seq<set<int>>,
      contexts: seq<set<int>>, complete: seq<bool>)
    requires Describes(lg, pip, og, firstSets) && AreInitial(pip, contexts, complete)
    ensures IsSettled(lg, contexts, complete, true)
  {
    forall z: nat, t | z < |pip.scs| && complete[z]
      ensures t in contexts[z] <==> InContext(lg, z, t)
    {
      AcceptingContext(lg, pip, og, firstSets, z, t);
    }
    forall z: nat, w: nat | z < |pip.scs| && complete[z]
      ensures !Continues(lg, z, w)
    {
      AcceptingHasNoOriginator(pip, z, w);
    }
  }

  /** What the runs of lane tracing have found is right, and without tangled lanes it is everything. */
  ghost predicate IsFound(lg: LaneGraph, pip: ParserInProgress, contexts: seq<set<int>>, complete: seq<bool>) {
    lg.Valid() && IsSettled(lg, contexts, complete, !HasTangle(lg)) && |lg.og| == |pip.scs|
  }

  /** Whether it is everything can be seen from the equations. */
  lemma FoundIsSettled(
      lg: LaneGraph, pip: ParserInProgress, contexts: seq<set<int>>, complete: seq<bool>)
    requires IsFound(lg, pip, contexts, complete)
    ensures IsSettled(lg, contexts, complete, SolvesEquations(lg, contexts, complete))
    ensures !HasTangle(lg) ==> SolvesEquations(lg, contexts, complete)
  {
    ExactWhenSolved(lg, contexts, complete);
  }

  /** The reductions of the first `s` states, and of the first `k` configs of state `s`, are complete,
      but for adequate states. */
  ghost predicate AreDone(pip: ParserInProgress, adequate: seq<bool>, complete: seq<bool>, s: nat, k: nat)
    requires pip.Valid() && |adequate| == |pip.states| && |complete| == |pip.scs|
  {
    forall z: nat ::
      && z < |pip.scs| && (pip.scs[z].state < s || (pip.scs[z].state == s && pip.scs[z].configInState < k))
      && !adequate[pip.scs[z].state] && IsComplete(pip.g, pip.cs, pip.ConfigAt(z)) ==>
        complete[z]
  }

  lemma OneMoreDone(
      pip: ParserInProgress, adequate: seq<bool>, complete: seq<bool>, complete': seq<bool>, s: nat, k: nat)
    requires pip.Valid() && |adequate| == |pip.states| && |complete| == |pip.scs| && s < |pip.states|
    requires AreDone(pip, adequate, complete, s, k) && StillComplete(complete, complete')
    requires k < |pip.states[s].configs|
    requires IsComplete(pip.g, pip.cs, pip.states[s].configs[k]) ==> complete'[pip.states2scs[s][k]]
    ensures AreDone(pip, adequate, complete', s, k + 1)
  {
  }

  /** What has been found between two runs. */
  datatype Found = Found(contexts: seq<set<int>>, complete: seq<bool>)

  /** The run from `z` goes from what has been found to what is found then; it ends with a failed check exactly if it
      gets to a turn in which the check fails. */
  ghost predicate IsRun(lg: LaneGraph, pip: ParserInProgress, z: nat, before: Found, outcome: Outcome, after: Found)
    requires pip.Valid()
  {
    && z < |before.complete|
    && if before.complete[z] then outcome.Done? && after == before
       else
         && RunEndsWith(lg, SiblingTable(pip), z, before.contexts, before.complete, outcome,
                        after.contexts, after.complete)
         && (outcome.CheckFailed? <==>
               SomeTurnFails(lg, SiblingTable(pip), z, Tracing(Started(before.contexts, before.complete, z))))
  }

  ghost predicate IsBrokenRun(lg: LaneGraph, pip: ParserInProgress, z: nat, before: Found, outcome: Outcome)
    requires pip.Valid()
  {
    exists after :: IsRun(lg, pip, z, before, outcome, after)
  }

  /** The address is one to be traced: that of a reduction of an inadequate state, in the first `s` states or among the
      first `k` configs of state `s`. */
  ghost predicate IsToTrace(pip: ParserInProgress, adequate: seq<bool>, z: int, s: nat, k: nat)
    requires pip.Valid() && |adequate| == |pip.states|
  {
    && 0 <= z < |pip.scs| && (pip.scs[z].state < s || (pip.scs[z].state == s && pip.scs[z].configInState < k))
    && !adequate[pip.scs[z].state] && IsComplete(pip.g, pip.cs, pip.ConfigAt(z))
  }

  ghost predicate IsLoggedRun(lg: LaneGraph, pip: ParserInProgress, zs: seq<nat>, log: seq<Found>, i: int)
    requires pip.Valid()
  {
    0 <= i < |zs| && i + 1 < |log| ==> IsRun(lg, pip, zs[i], log[i], Done, log[i + 1])
  }

  /** The runs so far, one from each address `zs`: those to be traced, none twice. */
  ghost predicate IsLog(
      lg: LaneGraph, pip: ParserInProgress, adequate: seq<bool>, zs: seq<nat>, log: seq<Found>, s: nat, k: nat)
    requires pip.Valid() && |adequate| == |pip.states|
  {
    && log != [] && |log| <= |zs| + 1 && AreInitial(pip, log[0].contexts, log[0].complete)
    && (forall i, j :: 0 <= i < j < |zs| ==> zs[i] != zs[j])
    && (forall z :: z in zs ==> IsToTrace(pip, adequate, z, s, k))
    && (forall i {:trigger IsLoggedRun(lg, pip, zs, log, i)} :: IsLoggedRun(lg, pip, zs, log, i))
  }

  /** All that is to be traced has been. */
  ghost predicate IsWholeLog(
      lg: LaneGraph, pip: ParserInProgress, adequate: seq<bool>, zs: seq<nat>, log: seq<Found>, s: nat, k: nat,
      found: Found)
    requires pip.Valid() && |adequate| == |pip.states|
  {
    && IsLog(lg, pip, adequate, zs, log, s, k) && |log| == |zs| + 1 && log[|zs|] == found
    && forall z: nat :: IsToTrace(pip, adequate, z, s, k) ==> z in zs
  }

  /** The last run has been given up. */
  ghost predicate IsBrokenLog(
      lg: LaneGraph, pip: ParserInProgress, adequate: seq<bool>, zs: seq<nat>, log: seq<Found>, outcome: Outcome)
    requires pip.Valid() && |adequate| == |pip.states|
  {
    && IsLog(lg, pip, adequate, zs, log, |pip.states|, 0) && |log| == |zs|
    && zs != [] && IsBrokenRun(lg, pip, zs[|zs| - 1], log[|zs| - 1], outcome)
  }

  lemma LogStarts(
      lg: LaneGraph, pip: ParserInProgress, adequate: seq<bool>, found: Found)
    requires pip.Valid() && |adequate| == |pip.states| && AreInitial(pip, found.contexts, found.complete)
    ensures IsWholeLog(lg, pip, adequate, [], [found], 0, 0, found)
  {
  }

  lemma SameToTrace(
      lg: LaneGraph, pip: ParserInProgress, adequate: seq<bool>, zs: seq<nat>, log: seq<Found>, s: nat, k: nat,
      s': nat, k': nat, found: Found)
    requires pip.Valid() && |adequate| == |pip.states| && IsWholeLog(lg, pip, adequate, zs, log, s, k, found)
    requires forall z: nat :: IsToTrace(pip, adequate, z, s, k) <==> IsToTrace(pip, adequate, z, s', k')
    ensures IsWholeLog(lg, pip, adequate, zs, log, s', k', found)
  {
    hide IsToTrace, IsLoggedRun;
  }

  /** A config that is not complete, and an adequate state, are passed over. */
  lemma LogPasses(
      lg: LaneGraph, pip: ParserInProgress, adequate: seq<bool>, zs: seq<nat>, log: seq<Found>, s: nat, k: nat,
      found: Found)
    requires pip.Valid() && |adequate| == |pip.states| && IsWholeLog(lg, pip, adequate, zs, log, s, k, found)
    requires s < |pip.states|
    ensures k < |pip.states[s].configs| && !IsComplete(pip.g, pip.cs, pip.states[s].configs[k]) ==>
      IsWholeLog(lg, pip, adequate, zs, log, s, k + 1, found)
    ensures adequate[s] || k == |pip.states[s].configs| ==> IsWholeLog(lg, pip, adequate, zs, log, s + 1, 0, found)
  {
    if k < |pip.states[s].configs| && !IsComplete(pip.g, pip.cs, pip.states[s].configs[k]) {
      SameToTrace(lg, pip, adequate, zs, log, s, k, s, k + 1, found);
    }
    if adequate[s] || k == |pip.states[s].configs| {
      SameToTrace(lg, pip, adequate, zs, log, s, k, s + 1, 0, found);
    }
  }

  lemma OneMoreToTrace(
      pip: ParserInProgress, adequate: seq<bool>, s: nat, k: nat, z: nat, y: int)
    requires pip.Valid() && |adequate| == |pip.states|
    requires s < |pip.states| && k < |pip.states[s].configs| && z == pip.states2scs[s][k] && !adequate[s]
    requires IsComplete(pip.g, pip.cs, pip.states[s].configs[k])
    ensures z < |pip.scs| && (IsToTrace(pip, adequate, y, s, k + 1) <==> IsToTrace(pip, adequate, y, s, k) || y == z)
    ensures !IsToTrace(pip, adequate, z, s, k)
    ensures IsToTrace(pip, adequate, y, s, k + 1) ==> IsToTrace(pip, adequate, y, |pip.states|, 0)
  {
    hide IsComplete;
    assert pip.scs[z] == StateConfig(s, k);
  }

  lemma LogGrows(
      lg: LaneGraph, pip: ParserInProgress, adequate: seq<bool>, zs: seq<nat>, log: seq<Found>, s: nat, k: nat,
      before: Found, outcome: Outcome, after: Found, z: nat)
    requires pip.Valid() && |adequate| == |pip.states| && IsWholeLog(lg, pip, adequate, zs, log, s, k, before)
    requires s < |pip.states| && k < |pip.states[s].configs| && z == pip.states2scs[s][k] && !adequate[s]
    requires IsComplete(pip.g, pip.cs, pip.states[s].configs[k]) && IsRun(lg, pip, z, before, outcome, after)
    ensures outcome.Done? ==> IsWholeLog(lg, pip, adequate, zs + [z], log + [after], s, k + 1, after)
    ensures !outcome.Done? ==> IsBrokenLog(lg, pip, adequate, zs + [z], log, outcome)
  {
    hide IsRun, IsComplete, AreInitial, IsToTrace, ParserInProgress.Valid;
    var zs', log' := zs + [z], log + [after];
    forall y: int
      ensures IsToTrace(pip, adequate, y, s, k + 1) <==> IsToTrace(pip, adequate, y, s, k) || y == z
      ensures IsToTrace(pip, adequate, y, s, k + 1) ==> IsToTrace(pip, adequate, y, |pip.states|, 0)
    {
      OneMoreToTrace(pip, adequate, s, k, z, y);
    }
    OneMoreToTrace(pip, adequate, s, k, z, z);
    forall i
      ensures IsLoggedRun(lg, pip, zs', log, i)
      ensures outcome.Done? ==> IsLoggedRun(lg, pip, zs', log', i)
    {
      assert IsLoggedRun(lg, pip, zs, log, i);
    }
    assert forall y :: y in zs' <==> y in zs || y == z;
    assert zs'[|zs|] == z;
    assert outcome.Done? ==> IsLog(lg, pip, adequate, zs', log', s, k + 1);
    if !outcome.Done? {
      assert IsLog(lg, pip, adequate, zs', log, |pip.states|, 0);
      assert IsBrokenRun(lg, pip, z, before, outcome);
    }
  }

  /** Traces the lanes of the reductions of one inadequate state. */
  method ComputeContextsOfState(
      ghost lg: LaneGraph, pip: ParserInProgress, og: ParserGraph, firstSets: seq<set<int>>,
      ghost adequate: seq<bool>, s: nat, contexts: seq<set<int>>, complete: seq<bool>, ghost zs: seq<nat>,
      ghost log: seq<Found>)
    returns (outcome: Outcome, contexts': seq<set<int>>, complete': seq<bool>, ghost zs': seq<nat>,
      ghost log': seq<Found>)
    requires Describes(lg, pip, og, firstSets) && IsFound(lg, pip, contexts, complete)
    requires |adequate| == |pip.states| && s < |pip.states| && AreDone(pip, adequate, complete, s, 0) && !adequate[s]
    requires IsWholeLog(lg, pip, adequate, zs, log, s, 0, Found(contexts, complete))
    ensures outcome.Done? ==>
      && IsFound(lg, pip, contexts', complete') && AreDone(pip, adequate, complete', s + 1, 0)
      && IsWholeLog(lg, pip, adequate, zs', log', s + 1, 0, Found(contexts', complete'))
    ensures !outcome.Done? ==> IsBrokenLog(lg, pip, adequate, zs', log', outcome)
    ensures outcome.Ambiguous? ==> IsAmbiguous(lg)
    ensures outcome.CheckFailed? ==> HasSnare(lg)
  {
    hide IsWholeLog, IsBrokenLog, IsFound, IsToTrace, AreDone, IsRun, Describes;
    DescribesMachine(lg, pip, og, firstSets);
    FoundHas(lg, pip, contexts, complete);
    outcome, contexts', complete', zs', log' := Done, contexts, complete, zs, log;
    for k := 0 to |pip.states[s].configs|
      invariant outcome.Done? && IsFound(lg, pip, contexts', complete') && |complete'| == |pip.scs|
      invariant AreDone(pip, adequate, complete', s, k)
      invariant IsWholeLog(lg, pip, adequate, zs', log', s, k, Found(contexts', complete'))
    {
      var config := pip.cs[pip.states[s].configs[k]];
      var zetaJ := pip.states2scs[s][k];
      assert pip.scs[zetaJ] == StateConfig(s, k);
      if config.dot != |pip.g.productions[config.production].rhs| {
        OneMoreDone(pip, adequate, complete', complete', s, k);
        LogPasses(lg, pip, adequate, zs', log', s, k, Found(contexts', complete'));
        continue;
      }
      ghost var before := Found(contexts', complete');
      outcome, contexts', complete' := ComputeFound(lg, zetaJ, contexts', complete', pip, og, firstSets);
      LogGrows(lg, pip, adequate, zs', log', s, k, before, outcome, Found(contexts', complete'), zetaJ);
      zs' := zs' + [zetaJ];
      if !outcome.Done? {
        return;
      }
      log' := log' + [Found(contexts', complete')];
      OneMoreDone(pip, adequate, before.complete, complete', s, k);
    }
    LogPasses(lg, pip, adequate, zs', log', s, |pip.states[s].configs|, Found(contexts', complete'));
    StateIsDone(pip, adequate, complete', s);
  }

  lemma StateIsDone(pip: ParserInProgress, adequate: seq<bool>, complete: seq<bool>, s: nat)
    requires pip.Valid() && |adequate| == |pip.states| && |complete| == |pip.scs| && s < |pip.states|
    requires AreDone(pip, adequate, complete, s, |pip.states[s].configs|)
    ensures AreDone(pip, adequate, complete, s + 1, 0)
  {
  }

  /** One run, from what has been found to what is found then. */
  method ComputeFound(
      ghost lg: LaneGraph, zetaJ: nat, contexts: seq<set<int>>, complete: seq<bool>, pip: ParserInProgress,
      og: ParserGraph, firstSets: seq<set<int>>)
    returns (outcome: Outcome, contexts': seq<set<int>>, complete': seq<bool>)
    requires Describes(lg, pip, og, firstSets) && zetaJ < |pip.scs| && IsFound(lg, pip, contexts, complete)
    ensures pip.Valid() && IsRun(lg, pip, zetaJ, Found(contexts, complete), outcome, Found(contexts', complete'))
    ensures outcome.Done? ==> IsFound(lg, pip, contexts', complete') && |complete'| == |pip.scs| && complete'[zetaJ]
    ensures outcome.Done? ==> StillComplete(complete, complete')
    ensures outcome.Ambiguous? ==> IsAmbiguous(lg)
    ensures outcome.CheckFailed? ==> HasSnare(lg)
  {
    hide HasTangle, RunEndsWith, SomeTurnFails;
    DescribesMachine(lg, pip, og, firstSets);
    outcome, contexts', complete' :=
      ComputeContextSet(lg, !HasTangle(lg), zetaJ, contexts, complete, pip, og, firstSets);
  }

  lemma StartsFound(
      lg: LaneGraph, pip: ParserInProgress, og: ParserGraph, firstSets: seq<set<int>>, adequate: seq<bool>,
      contexts: seq<set<int>>, complete: seq<bool>)
    requires Describes(lg, pip, og, firstSets) && AreInitial(pip, contexts, complete) && |adequate| == |pip.states|
    ensures IsFound(lg, pip, contexts, complete) && AreDone(pip, adequate, complete, 0, 0)
  {
    hide Describes, HasTangle;
    DescribesMachine(lg, pip, og, firstSets);
    InitialContextsAreSettled(lg, pip, og, firstSets, contexts, complete);
  }

  lemma FoundHas(lg: LaneGraph, pip: ParserInProgress, contexts: seq<set<int>>, complete: seq<bool>)
    requires IsFound(lg, pip, contexts, complete)
    ensures lg.Valid() && |contexts| == |complete| == |lg.og| == |pip.scs|
  {
  }

  lemma DoneSkips(pip: ParserInProgress, adequate: seq<bool>, complete: seq<bool>, s: nat)
    requires pip.Valid() && |adequate| == |pip.states| && |complete| == |pip.scs| && s < |pip.states|
    requires adequate[s] && AreDone(pip, adequate, complete, s, 0)
    ensures AreDone(pip, adequate, complete, s + 1, 0)
  {
  }

  method ComputeContexts(
      ghost lg: LaneGraph, pip: ParserInProgress, og: ParserGraph, firstSets: seq<set<int>>, adequate: seq<bool>)
    returns (outcome: Outcome, contexts: seq<set<int>>, complete: seq<bool>, ghost zs: seq<nat>, ghost log: seq<Found>)
    requires Describes(lg, pip, og, firstSets) && |adequate| == |pip.states|
    ensures outcome.Done? ==>
      && IsFound(lg, pip, contexts, complete)
      && AreDone(pip, adequate, complete, |pip.states|, 0)
      && IsWholeLog(lg, pip, adequate, zs, log, |pip.states|, 0, Found(contexts, complete))
    ensures !outcome.Done? ==> IsBrokenLog(lg, pip, adequate, zs, log, outcome)
    ensures outcome.Ambiguous? ==> IsAmbiguous(lg)
    ensures outcome.CheckFailed? ==> HasSnare(lg)
  {
    hide Describes, IsFound, AreDone, IsWholeLog, IsBrokenLog;
    DescribesMachine(lg, pip, og, firstSets);
    outcome := Done;
    contexts, complete := InitialContexts(pip);
    zs, log := [], [Found(contexts, complete)];
    LogStarts(lg, pip, adequate, Found(contexts, complete));
    StartsFound(lg, pip, og, firstSets, adequate, contexts, complete);
    for s := 0 to |pip.states|
      invariant outcome.Done? && |complete| == |pip.scs| && IsFound(lg, pip, contexts, complete)
      invariant AreDone(pip, adequate, complete, s, 0)
      invariant IsWholeLog(lg, pip, adequate, zs, log, s, 0, Found(contexts, complete))
    {
      FoundHas(lg, pip, contexts, complete);
      if adequate[s] {
        DoneSkips(pip, adequate, complete, s);
        LogPasses(lg, pip, adequate, zs, log, s, 0, Found(contexts, complete));
        continue;
      }
      outcome, contexts, complete, zs, log :=
        ComputeContextsOfState(lg, pip, og, firstSets, adequate, s, contexts, complete, zs, log);
      if !outcome.Done? {
        return;
      }
      FoundHas(lg, pip, contexts, complete);
    }
  }

  /** The machine with the contexts found, which differs from the LR(0) one in its reductions only. */
  ghost predicate IsUpdated(
      lr0: ParserInProgress, contexts: seq<set<int>>, complete: seq<bool>, states: seq<State>)
    requires lr0.Valid() && |contexts| == |complete| == |lr0.scs|
  {
    && |states| == |lr0.states|
    && forall s :: 0 <= s < |states| ==>
         states[s] == StateWithContexts(lr0, contexts, complete, s, |lr0.states[s].configs|)
  }

  method UpdateStates(pip: ParserInProgress, contexts: seq<set<int>>, complete: seq<bool>) returns (states: seq<State>)
    requires pip.Valid() && |contexts| == |complete| == |pip.scs|
    ensures IsUpdated(pip, contexts, complete, states)
  {
    states := [];
    for s := 0 to |pip.states|
      invariant |states| == s
      invariant forall r :: 0 <= r < s ==>
        states[r] == StateWithContexts(pip, contexts, complete, r, |pip.states[r].configs|)
    {
      var state := UpdateState(pip, contexts, complete, s);
      states := states + [state];
    }
  }

  lemma UpdatedIsWellFormed(
      lg: LaneGraph, pip: ParserInProgress, og: ParserGraph, firstSets: seq<set<int>>, start: nat,
      contexts: seq<set<int>>, complete: seq<bool>, exact: bool, s: nat)
    requires IsSetUp(lg, pip, og, firstSets, start) && IsSettled(lg, contexts, complete, exact)
    requires s < |pip.states|
    ensures HasWellFormedContexts(pip.g, StateWithContexts(pip, contexts, complete, s, |pip.states[s].configs|))
  {
    MachineIsWellFormed(pip.g, pip.cs, start, pip.states, s);
    var actions := pip.states[s].actions;
    var state' := StateWithContexts(pip, contexts, complete, s, |pip.states[s].configs|);
    forall k: nat | k < |actions|
      ensures HasWellFormedContext(pip.g, state'.actions[k])
    {
      if actions[k].action.Shift? {
        ShiftKeepsContext(pip, contexts, complete, s, |pip.states[s].configs|, actions[k]);
        assert HasWellFormedContext(pip.g, actions[k]);
      } else {
        var z := ReductionHasAddress(pip, start, s, k);
        ContextIsItsOwn(pip, contexts, complete, s, |pip.states[s].configs|, actions[k], z);
        forall t | t in contexts[z]
          ensures t in Terminals(pip.g)
        {
          ContextsAreTerminals(lg, pip, og, firstSets, start, z, t);
        }
        assert HasWellFormedContext(pip.g, actions[k]);
      }
    }
  }

  lemma ContextsDecide(
      lg: LaneGraph, pip: ParserInProgress, og: ParserGraph, firstSets: seq<set<int>>, start: nat,
      contexts: seq<set<int>>, complete: seq<bool>, exact: bool, adequate: seq<bool>, states: seq<State>)
    requires IsSetUp(lg, pip, og, firstSets, start) && IsSettled(lg, contexts, complete, exact)
    requires |adequate| == |pip.states|
    requires forall s :: 0 <= s < |adequate| ==> (adequate[s] <==> IsAdequate(pip.g, pip.states[s]))
    requires AreDone(pip, adequate, complete, |pip.states|, 0) && IsUpdated(pip, contexts, complete, states)
    ensures IsConflictFree(lg, pip) ==> forall s :: 0 <= s < |states| ==> IsAdequate(pip.g, states[s])
    ensures exact && (forall s :: 0 <= s < |states| ==> IsAdequate(pip.g, states[s])) ==> IsConflictFree(lg, pip)
  {
    forall s: nat | s < |states|
      ensures StateIsConflictFree(lg, pip, s) ==> IsAdequate(pip.g, states[s])
      ensures exact && IsAdequate(pip.g, states[s]) ==> StateIsConflictFree(lg, pip, s)
    {
      if adequate[s] {
        AdequateStateStaysSo(lg, pip, og, firstSets, start, contexts, complete, exact, s);
      } else {
        FoundStateIsDecided(lg, pip, og, firstSets, start, contexts, complete, exact, s);
      }
    }
  }

  /** The states have the configs and the actions of the machine. In those that needed contexts, an
      action is in context only before terminals it is possible before and, if the contexts found are
      exact, before all of those. */
  ghost predicate HasFoundContexts(lg: LaneGraph, pip: ParserInProgress, states: seq<State>, exact: bool)
    requires lg.Valid()
  {
    && |states| == |pip.states|
    && forall s: nat :: s < |states| ==> StateHasFoundContexts(lg, pip, s, states[s], exact)
  }

  ghost predicate StateHasFoundContexts(lg: LaneGraph, pip: ParserInProgress, s: nat, state: State, exact: bool)
    requires lg.Valid() && s < |pip.states|
  {
    && state.configs == pip.states[s].configs && |state.actions| == |pip.states[s].actions|
    && (forall k :: 0 <= k < |state.actions| ==> state.actions[k].action == pip.states[s].actions[k].action)
    && (!IsAdequate(pip.g, pip.states[s]) ==> forall k, t :: 0 <= k < |state.actions| ==>
          && (t in state.actions[k].context ==> IsPossible(lg, pip, s, pip.states[s].actions[k], t))
          && (exact && IsPossible(lg, pip, s, pip.states[s].actions[k], t) ==>
                t in state.actions[k].context))
  }

  lemma FoundContextsAreRight(
      lg: LaneGraph, pip: ParserInProgress, start: nat,
      contexts: seq<set<int>>, complete: seq<bool>, exact: bool, adequate: seq<bool>, states: seq<State>)
    requires pip.Valid() && IsLr0Machine(pip.g, pip.cs, start, pip.states)
    requires IsSettled(lg, contexts, complete, exact) && |lg.og| == |pip.scs|
    requires |adequate| == |pip.states|
    requires forall s :: 0 <= s < |adequate| ==> (adequate[s] <==> IsAdequate(pip.g, pip.states[s]))
    requires AreDone(pip, adequate, complete, |pip.states|, 0) && IsUpdated(pip, contexts, complete, states)
    ensures HasFoundContexts(lg, pip, states, exact)
  {
    forall s: nat, k: nat, t | s < |states| && !adequate[s] && k < |states[s].actions|
      ensures t in states[s].actions[k].context ==> IsPossible(lg, pip, s, pip.states[s].actions[k], t)
      ensures exact && IsPossible(lg, pip, s, pip.states[s].actions[k], t) ==>
        t in states[s].actions[k].context
    {
      if t in states[s].actions[k].context {
        UpdatedActionIsPossible(lg, pip, start, contexts, complete, exact, s, k, t);
      }
      if exact && IsPossible(lg, pip, s, pip.states[s].actions[k], t) {
        PossibleActionIsInContext(lg, pip, contexts, complete, s, k, t);
      }
    }
  }

  method AllOf(flags: seq<bool>) returns (all: bool)
    ensures all <==> forall s :: 0 <= s < |flags| ==> flags[s]
  {
    all := true;
    for s := 0 to |flags|
      invariant all <==> forall r :: 0 <= r < s ==> flags[r]
    {
      all := all && flags[s];
    }
  }

  lemma UpdatedAreWellFormed(
      lg: LaneGraph, lr0: ParserInProgress, og: ParserGraph, firstSets: seq<set<int>>, start: nat,
      contexts: seq<set<int>>, complete: seq<bool>, exact: bool, states: seq<State>)
    requires IsSetUp(lg, lr0, og, firstSets, start) && IsSettled(lg, contexts, complete, exact)
    requires IsUpdated(lr0, contexts, complete, states)
    ensures forall s :: 0 <= s < |states| ==> HasWellFormedContexts(lr0.g, states[s])
  {
    forall s | 0 <= s < |states|
      ensures HasWellFormedContexts(lr0.g, states[s])
    {
      UpdatedIsWellFormed(lg, lr0, og, firstSets, start, contexts, complete, exact, s);
    }
  }

  /** Checks the machine with the contexts found. */
  method Decide(
      ghost lg: LaneGraph, ghost og: ParserGraph, ghost firstSets: seq<set<int>>, ghost start: nat,
      lr0: ParserInProgress, ghost adequate: seq<bool>, contexts: seq<set<int>>, complete: seq<bool>)
    returns (verdict: Verdict, states: seq<State>)
    requires IsSetUp(lg, lr0, og, firstSets, start) && IsFound(lg, lr0, contexts, complete)
    requires |adequate| == |lr0.states| && AreDone(lr0, adequate, complete, |lr0.states|, 0)
    requires forall s :: 0 <= s < |adequate| ==> (adequate[s] <==> IsAdequate(lr0.g, lr0.states[s]))
    ensures verdict.IsLalr1? || verdict.IsNotLalr1?
    ensures HasFoundContexts(lg, lr0, states, SolvesEquations(lg, contexts, complete))
    ensures lr0.Valid() && |contexts| == |complete| == |lr0.scs| && IsUpdated(lr0, contexts, complete, states)
    ensures verdict.IsLalr1? <==> forall s :: 0 <= s < |states| ==> IsAdequate(lr0.g, states[s])
    ensures verdict.IsNotLalr1? ==> !IsConflictFree(lg, lr0)
    ensures verdict.IsLalr1? && SolvesEquations(lg, contexts, complete) ==> IsConflictFree(lg, lr0)
  {
    hide IsSetUp, IsSettled, IsConflictFree, AreDone, HasFoundContexts, IsUpdated;
    SetUpHas(lg, lr0, og, firstSets, start, contexts, complete);
    FoundIsSettled(lg, lr0, contexts, complete);
    ghost var exact := SolvesEquations(lg, contexts, complete);
    states := UpdateStates(lr0, contexts, complete);
    UpdatedAreWellFormed(lg, lr0, og, firstSets, start, contexts, complete, exact, states);
    var adequate' := DetermineAdequateStates(lr0.g, states);
    var all := AllOf(adequate');
    verdict := if all then IsLalr1 else IsNotLalr1;
    ContextsDecide(lg, lr0, og, firstSets, start, contexts, complete, exact, adequate, states);
    FoundContextsAreRight(lg, lr0, start, contexts, complete, exact, adequate, states);
  }

  lemma SetUpHas(
      lg: LaneGraph, pip: ParserInProgress, og: ParserGraph, firstSets: seq<set<int>>, start: nat,
      contexts: seq<set<int>>, complete: seq<bool>)
    requires IsSetUp(lg, pip, og, firstSets, start) && IsFound(lg, pip, contexts, complete)
    ensures lg.Valid() && pip.Valid() && IsLr0Machine(pip.g, pip.cs, start, pip.states)
    ensures |contexts| == |complete| == |lg.og| == |pip.scs|
  {
  }

  lemma MachineSatisfiesChecks(pip: ParserInProgress, start: nat)
    requires pip.Valid() && IsLr0Machine(pip.g, pip.cs, start, pip.states)
    ensures forall s :: 0 <= s < |pip.states| ==> HasWellFormedContexts(pip.g, pip.states[s])
    ensures ShiftsAreWellFormed(pip.states)
  {
    forall s | 0 <= s < |pip.states|
      ensures HasWellFormedContexts(pip.g, pip.states[s])
      ensures forall k :: 0 <= k < |pip.states[s].actions| && pip.states[s].actions[k].action.Shift? ==>
        |pip.states[s].actions[k].context| == 1 && pip.states[s].actions[k].action.nextState < |pip.states|
    {
      MachineIsWellFormed(pip.g, pip.cs, start, pip.states, s);
    }
  }

  /** What the construction goes through: the machine before the contexts of its reductions are set, its
      lane graph, from where its lanes are traced, and what that finds. */
  datatype Construction = Construction(
    lr0: ParserInProgress, start: nat, lg: LaneGraph, og: ParserGraph, firstSets: seq<set<int>>, adequate: seq<bool>,
    zs: seq<nat>, log: seq<Found>, found: Found)
  {
    ghost predicate HasMachine(g: Grammar) {
      lr0.g == g && lr0.Valid() && IsLr0Machine(g, lr0.cs, start, lr0.states)
    }

    ghost predicate HasLanes() {
      && IsSetUp(lg, lr0, og, firstSets, start) && lr0.Valid() && lg.Valid() && |adequate| == |lr0.states|
      && forall s :: 0 <= s < |adequate| ==> (adequate[s] <==> IsAdequate(lr0.g, lr0.states[s]))
    }

    /** The construction starts from this machine, and it has no conflict by its contexts. */
    ghost predicate HasConflictFreeLanes(pip: ParserInProgress) {
      lr0 == pip && HasLanes() && IsConflictFree(lg, lr0)
    }

    /** Lane tracing has found all contexts of the addresses it has completed. */
    ghost predicate HasAllContexts()
      requires HasLanes()
    {
      |found.contexts| == |found.complete| == |lg.og| && SolvesEquations(lg, found.contexts, found.complete)
    }

    /** The lanes of all reductions of inadequate states have been traced, the contexts found are right and, without
        a tangle, complete, and the machine `pip` has them. */
    ghost predicate HasTraced(pip: ParserInProgress)
      requires HasLanes()
    {
      && IsWholeLog(lg, lr0, adequate, zs, log, |lr0.states|, 0, found)
      && IsFound(lg, lr0, found.contexts, found.complete) && (!HasTangle(lg) ==> HasAllContexts())
      && pip == lr0.(states := pip.states) && HasFoundContexts(lg, lr0, pip.states, HasAllContexts())
      && IsUpdated(lr0, found.contexts, found.complete, pip.states)
    }

    /** The verdict is right: LR(0) only if no state needs contexts; LALR(1) only if no state has a conflict by those
        found, and not if one has by all there are; given up only for a reason. */
    ghost predicate Justifies(verdict: Verdict, pip: ParserInProgress)
      requires HasLanes()
    {
      match verdict
      case IsLr0 => false
      case IsLalr1 =>
        && HasTraced(pip) && (forall s :: 0 <= s < |pip.states| ==> IsAdequate(lr0.g, pip.states[s]))
        && (HasAllContexts() ==> IsConflictFree(lg, lr0))
      case IsNotLalr1 => HasTraced(pip) && !IsConflictFree(lg, lr0)
      case GaveUp(outcome) =>
        && IsBrokenLog(lg, lr0, adequate, zs, log, outcome)
        && if outcome.Ambiguous? then IsAmbiguous(lg) && !IsConflictFree(lg, lr0)
           else outcome.CheckFailed? && HasSnare(lg)
    }
  }

  /** The construction. A refusal is right by the contexts, though not always by LALR(1) (see
      `Originators`), and so is the report of an ambiguity; an acceptance is right by the contexts if lane tracing has
      found them all, which it does unless lanes are tangled. A check can fail only where there is a snare. */
  method BuildLalr1Parser(g: Grammar) returns (verdict: Verdict, pip: ParserInProgress, ghost c: Construction)
    requires g.HasAccept()
    ensures c.HasMachine(g) && (verdict.IsLr0? ==> pip == c.lr0)
    ensures verdict.IsLr0? <==> forall s :: 0 <= s < |c.lr0.states| ==> IsAdequate(g, c.lr0.states[s])
    ensures !verdict.IsLr0? ==> c.HasLanes() && c.Justifies(verdict, pip)
  {
    ghost var start;
    pip, start := BuildMachine(g);
    verdict, pip, c := FinishParser(pip, start);
  }

  lemma GivingUpIsJustified(
      lg: LaneGraph, pip: ParserInProgress, og: ParserGraph, firstSets: seq<set<int>>, start: nat, outcome: Outcome)
    requires IsSetUp(lg, pip, og, firstSets, start) && lg.Valid()
    requires outcome.Ambiguous? ==> IsAmbiguous(lg)
    ensures outcome.Ambiguous? ==> IsAmbiguous(lg) && !IsConflictFree(lg, pip)
  {
    if outcome.Ambiguous? {
      ReportedAmbiguityIsConflict(lg, pip, og, firstSets, start);
    }
  }

  /** What follows once the LR(0) machine is there. */
  method FinishParser(lr0: ParserInProgress, ghost start: nat)
    returns (verdict: Verdict, pip: ParserInProgress, ghost c: Construction)
    requires lr0.Valid() && IsLr0Machine(lr0.g, lr0.cs, start, lr0.states)
    ensures c.lr0 == lr0 && c.start == start && (verdict.IsLr0? ==> pip == lr0)
    ensures verdict.IsLr0? <==> forall s :: 0 <= s < |lr0.states| ==> IsAdequate(lr0.g, lr0.states[s])
    ensures !verdict.IsLr0? ==> c.HasLanes() && c.Justifies(verdict, pip)
  {
    hide IsSetUp, ParserInProgress.Valid, IsLr0Machine, IsFound, AreDone, IsWholeLog, IsBrokenLog, IsAdequate,
      HasTangle, HasSnare, HasFoundContexts, SolvesEquations, IsUpdated, Clash, IsAmbiguous, IsConflictFree;
    pip := lr0;
    MachineSatisfiesChecks(lr0, start);
    var adequate := DetermineAdequateStates(lr0.g, lr0.states);
    c := Construction(lr0, start, LaneGraph([], [], []), [], [], adequate, [], [], Found([], []));
    var all := AllOf(adequate);
    if all {
      verdict := IsLr0;
      return;
    }
    var originators, firsts;
    ghost var lg;
    originators, firsts, lg := PrepareLanes(lr0, start);
    c := c.(lg := lg, og := originators, firstSets := firsts);
    var outcome, contexts, complete;
    ghost var zs, log;
    outcome, contexts, complete, zs, log := ComputeContexts(lg, lr0, originators, firsts, adequate);
    c := c.(zs := zs, log := log);
    if !outcome.Done? {
      verdict := GaveUp(outcome);
      GivingUpIsJustified(lg, lr0, originators, firsts, start, outcome);
      return;
    }
    c := c.(found := Found(contexts, complete));
    FoundIsSettled(lg, lr0, contexts, complete);
    FoundHas(lg, lr0, contexts, complete);
    var states;
    verdict, states := Decide(lg, originators, firsts, start, lr0, adequate, contexts, complete);
    pip := lr0.(states := states);
  }

  /** If there is one address to be traced, its run is the only one. */
  lemma OnlyRun(c: Construction, verdict: Verdict, pip: ParserInProgress, z: nat)
    returns (before: Found, outcome: Outcome, after: Found)
    requires c.HasLanes() && !verdict.IsLr0? && c.Justifies(verdict, pip)
    requires forall y :: IsToTrace(c.lr0, c.adequate, y, |c.lr0.states|, 0) <==> y == z
    ensures AreInitial(c.lr0, before.contexts, before.complete) && IsRun(c.lg, c.lr0, z, before, outcome, after)
    ensures if verdict.GaveUp? then verdict.outcome == outcome else outcome.Done? && after == c.found
  {
    hide IsToTrace, IsRun, IsSetUp, ParserInProgress.Valid, IsFound, HasFoundContexts, HasTangle, HasSnare,
      SolvesEquations, IsConflictFree, AreInitial;
    if verdict.GaveUp? {
      outcome := verdict.outcome;
      before, after := OnlyBrokenRun(c.lg, c.lr0, c.adequate, c.zs, c.log, outcome, z);
    } else {
      outcome, after := Done, c.found;
      before := OnlyWholeRun(c.lg, c.lr0, c.adequate, c.zs, c.log, c.found, z);
    }
  }

  lemma OnlyBrokenRun(
      lg: LaneGraph, pip: ParserInProgress, adequate: seq<bool>, zs: seq<nat>, log: seq<Found>, outcome: Outcome,
      z: nat)
    returns (before: Found, after: Found)
    requires pip.Valid() && |adequate| == |pip.states| && IsBrokenLog(lg, pip, adequate, zs, log, outcome)
    requires forall y :: IsToTrace(pip, adequate, y, |pip.states|, 0) <==> y == z
    ensures AreInitial(pip, before.contexts, before.complete) && IsRun(lg, pip, z, before, outcome, after)
  {
    hide IsToTrace, IsRun, ParserInProgress.Valid, AreInitial;
    var last := |zs| - 1;
    assert zs[0] in zs && zs[last] in zs;
    assert zs[0] == z == zs[last];
    before := log[0];
    after :| IsRun(lg, pip, zs[last], log[last], outcome, after);
  }

  lemma OnlyWholeRun(
      lg: LaneGraph, pip: ParserInProgress, adequate: seq<bool>, zs: seq<nat>, log: seq<Found>, found: Found, z: nat)
    returns (before: Found)
    requires pip.Valid() && |adequate| == |pip.states|
    requires IsWholeLog(lg, pip, adequate, zs, log, |pip.states|, 0, found)
    requires forall y :: IsToTrace(pip, adequate, y, |pip.states|, 0) <==> y == z
    ensures AreInitial(pip, before.contexts, before.complete) && IsRun(lg, pip, z, before, Done, found)
  {
    hide IsToTrace, IsRun, ParserInProgress.Valid, AreInitial;
    assert z in zs;
    var last := |zs| - 1;
    assert zs[0] in zs && zs[last] in zs;
    assert zs[0] == z == zs[last];
    assert IsLoggedRun(lg, pip, zs, log, 0);
    before := log[0];
  }

  lemma AllContextsAreFound(c: Construction, pip: ParserInProgress)
    requires c.HasLanes() && c.HasTraced(pip) && !HasTangle(c.lg)
    ensures c.HasAllContexts()
  {
  }

  /** Without cycles of lanes nothing is lost and nothing fails. */
  lemma AcyclicIsHarmless(lg: LaneGraph)
    requires lg.Valid() && IsAcyclic(lg)
    ensures !HasTangle(lg) && !HasSnare(lg) && !IsAmbiguous(lg)
  {
    hide HasTangle, HasSnare, Leads;
    if HasTangle(lg) {
      TanglesAreCycles(lg);
    }
    if HasSnare(lg) {
      SnaresAreCycles(lg);
    }
  }

  /** The originators and the FIRST sets. */
  method PrepareLanes(lr0: ParserInProgress, ghost start: nat)
    returns (og: ParserGraph, firstSets: seq<set<int>>, ghost lg: LaneGraph)
    requires lr0.Valid() && IsLr0Machine(lr0.g, lr0.cs, start, lr0.states)
    ensures IsSetUp(lg, lr0, og, firstSets, start) && Describes(lg, lr0, og, firstSets) && lg.Valid()
  {
    MachineSatisfiesChecks(lr0, start);
    og := MakeOriginatorGraph(lr0);
    firstSets := ComputeFirstSets(lr0.g);
    lg := LaneGraphOf(lr0, og, firstSets);
  }

  // ----- what the verdict means -----

  /** The action is possible before `t` in some state of the canonical LR(1) machine that has merged
      into state `s`. */
  ghost predicate IsPossibleByItems(pip: ParserInProgress, start: nat, s: nat, a: ActionInProgress, t: int)
    requires pip.Valid()
  {
    if a.action.Shift? then t in a.context
    else exists z: nat :: IsReductionOf(pip, s, z, a) && IsLr1Item(pip, start, Item(z, t))
  }

  ghost predicate AreDistinguished(pip: ParserInProgress, start: nat, s: nat, k: int, l: int, t: int)
    requires pip.Valid() && s < |pip.states| && 0 <= k < l < |pip.states[s].actions|
  {
    pip.g.IsTerminal(t) ==>
      || !IsPossibleByItems(pip, start, s, pip.states[s].actions[k], t)
      || !IsPossibleByItems(pip, start, s, pip.states[s].actions[l], t)
  }

  /** The lookahead tells any two actions of a state apart: the grammar is LALR(1). */
  ghost predicate IsLalr1Machine(pip: ParserInProgress, start: nat)
    requires pip.Valid()
  {
    forall s: nat, k, l, t :: s < |pip.states| && 0 <= k < l < |pip.states[s].actions| ==>
      AreDistinguished(pip, start, s, k, l, t)
  }

  lemma PossibleByItemsIsPossible(
      lg: LaneGraph, pip: ParserInProgress, og: ParserGraph, firstSets: seq<set<int>>, start: nat, s: nat,
      a: ActionInProgress, t: int)
    requires IsSetUp(lg, pip, og, firstSets, start)
    ensures IsPossibleByItems(pip, start, s, a, t) ==> IsPossible(lg, pip, s, a, t)
    ensures OriginatorsHaveFirst(lg) && OriginatorsAreLalr(pip) && IsPossible(lg, pip, s, a, t) ==>
      IsPossibleByItems(pip, start, s, a, t)
  {
    if a.action.Reduce? {
      if IsPossibleByItems(pip, start, s, a, t) {
        var z: nat :| IsReductionOf(pip, s, z, a) && IsLr1Item(pip, start, Item(z, t));
        ContextsCoverLookaheads(lg, pip, og, firstSets, start, z, t);
      }
      if OriginatorsHaveFirst(lg) && OriginatorsAreLalr(pip) && IsPossible(lg, pip, s, a, t) {
        var z: nat :| IsReductionOf(pip, s, z, a) && InContext(lg, z, t);
        ContextsAreLookaheads(lg, pip, og, firstSets, start, z, t);
      }
    }
  }

  lemma ConflictFreeDistinguishes(
      lg: LaneGraph, pip: ParserInProgress, og: ParserGraph, firstSets: seq<set<int>>, start: nat,
      s: nat, k: int, l: int, t: int)
    requires IsSetUp(lg, pip, og, firstSets, start) && s < |pip.states| && 0 <= k < l < |pip.states[s].actions|
    requires StateIsConflictFree(lg, pip, s)
    ensures AreDistinguished(pip, start, s, k, l, t)
  {
    var a, b := pip.states[s].actions[k], pip.states[s].actions[l];
    PossibleByItemsIsPossible(lg, pip, og, firstSets, start, s, a, t);
    PossibleByItemsIsPossible(lg, pip, og, firstSets, start, s, b, t);
    assert !MayClash(lg, pip, s, a, b);
  }

  lemma DistinguishedDoNotClash(
      lg: LaneGraph, pip: ParserInProgress, og: ParserGraph, firstSets: seq<set<int>>, start: nat,
      s: nat, k: int, l: int)
    requires IsSetUp(lg, pip, og, firstSets, start) && s < |pip.states| && 0 <= k < l < |pip.states[s].actions|
    requires OriginatorsHaveFirst(lg) && OriginatorsAreLalr(pip)
    requires forall t :: AreDistinguished(pip, start, s, k, l, t)
    ensures !MayClash(lg, pip, s, pip.states[s].actions[k], pip.states[s].actions[l])
  {
    var a, b := pip.states[s].actions[k], pip.states[s].actions[l];
    forall t | pip.g.IsTerminal(t)
      ensures !IsPossible(lg, pip, s, a, t) || !IsPossible(lg, pip, s, b, t)
    {
      assert AreDistinguished(pip, start, s, k, l, t);
      PossibleByItemsIsPossible(lg, pip, og, firstSets, start, s, a, t);
      PossibleByItemsIsPossible(lg, pip, og, firstSets, start, s, b, t);
    }
  }

  /** A machine without conflicts by its contexts is LALR(1). The other way round it takes that something can
      follow at each originator, and that those are the LALR(1) ones. */
  lemma ConflictFreeMeansLalr1(
      lg: LaneGraph, pip: ParserInProgress, og: ParserGraph, firstSets: seq<set<int>>, start: nat)
    requires IsSetUp(lg, pip, og, firstSets, start)
    ensures IsConflictFree(lg, pip) ==> IsLalr1Machine(pip, start)
    ensures OriginatorsHaveFirst(lg) && OriginatorsAreLalr(pip) && IsLalr1Machine(pip, start) ==>
      IsConflictFree(lg, pip)
  {
    if IsConflictFree(lg, pip) {
      forall s: nat, k, l, t | s < |pip.states| && 0 <= k < l < |pip.states[s].actions|
        ensures AreDistinguished(pip, start, s, k, l, t)
      {
        ConflictFreeDistinguishes(lg, pip, og, firstSets, start, s, k, l, t);
      }
    }
    if OriginatorsHaveFirst(lg) && OriginatorsAreLalr(pip) && IsLalr1Machine(pip, start) {
      forall s: nat, k, l | s < |pip.states| && 0 <= k < l < |pip.states[s].actions|
        ensures !MayClash(lg, pip, s, pip.states[s].actions[k], pip.states[s].actions[l])
      {
        assert forall t :: AreDistinguished(pip, start, s, k, l, t);
        DistinguishedDoNotClash(lg, pip, og, firstSets, start, s, k, l);
      }
    }
  }
}
