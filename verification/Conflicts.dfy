/** When a machine has a conflict by its contexts, and why an ambiguity that lane tracing reports
    (src/Omega_h_build_parser.cpp, `compute_context_set`) is one. */
module Conflicts {
  import opened Containers
  import opened Grammars
  import opened FirstSets
  import opened Lr0
  import opened Originators
  import opened Lanes
  import opened LaneTracing
  import opened Lookaheads
  import opened Adequacy

  // ----- conflicts -----

  /** The action is possible before terminal `t`: for a reduction, `t` is a context of its config. */
  ghost predicate IsPossible(lg: LaneGraph, pip: ParserInProgress, s: nat, a: ActionInProgress, t: int)
    requires lg.Valid()
  {
    if a.action.Shift? then t in a.context
    else exists z: nat :: IsReductionOf(pip, s, z, a) && InContext(lg, z, t)
  }

  ghost predicate MayClash(lg: LaneGraph, pip: ParserInProgress, s: nat, a: ActionInProgress, b: ActionInProgress)
    requires lg.Valid()
  {
    exists t :: pip.g.IsTerminal(t) && IsPossible(lg, pip, s, a, t) && IsPossible(lg, pip, s, b, t)
  }

  ghost predicate StateIsConflictFree(lg: LaneGraph, pip: ParserInProgress, s: nat)
    requires lg.Valid() && s < |pip.states|
  {
    forall k, l :: 0 <= k < l < |pip.states[s].actions| ==>
      !MayClash(lg, pip, s, pip.states[s].actions[k], pip.states[s].actions[l])
  }

  /** No state has two actions possible before one terminal. */
  ghost predicate IsConflictFree(lg: LaneGraph, pip: ParserInProgress)
    requires lg.Valid()
  {
    forall s: nat :: s < |pip.states| ==> StateIsConflictFree(lg, pip, s)
  }

  /** A complete config has its reduction among the actions of the state. */
  lemma ReductionExists(g: Grammar, cs: Configs, configs: seq<int>, c: int) returns (k: nat)
    requires c in configs && IsComplete(g, cs, c)
    ensures k < |Reductions(g, cs, configs)|
    ensures Reductions(g, cs, configs)[k] == ActionInProgress(Reduce(cs[c].production), {})
  {
    var n := |configs| - 1;
    assert configs == configs[..n] + [configs[n]];
    if c == configs[n] {
      k := |Reductions(g, cs, configs[..n])|;
    } else {
      k := ReductionExists(g, cs, configs[..n], c);
    }
  }

  lemma StateHasReduction(
      g: Grammar, cs: Configs, start: nat, states: seq<State>, s: nat, c: int)
    returns (k: nat)
    requires IsLr0Machine(g, cs, start, states) && s < |states| && c in states[s].configs && IsComplete(g, cs, c)
    ensures k < |states[s].actions| && states[s].actions[k].action == Reduce(cs[c].production)
  {
    hide ShiftsAreComplete, IsCollection, IsComplete, Terminals;
    assert HasLr0Actions(g, cs, ItemsOf(states), states[s]);
    var reductions := Reductions(g, cs, states[s].configs);
    var shifts :| ShiftsAreComplete(g, cs, ItemsOf(states), Elements(states[s].configs), shifts)
      && states[s].actions == AllInLr0Context(g, shifts + reductions);
    var i := ReductionExists(g, cs, states[s].configs, c);
    k := |shifts| + i;
    assert states[s].actions[k] == InLr0Context(g, reductions[i]);
  }

  lemma CompleteHasReduction(pip: ParserInProgress, start: nat, z: nat) returns (k: nat)
    requires pip.Valid() && IsLr0Machine(pip.g, pip.cs, start, pip.states)
    requires pip.IsAddress(z) && IsComplete(pip.g, pip.cs, pip.ConfigAt(z))
    ensures k < |pip.states[pip.scs[z].state].actions|
    ensures IsReductionOf(pip, pip.scs[z].state, z, pip.states[pip.scs[z].state].actions[k])
  {
    hide ParserInProgress.Valid, IsLr0Machine;
    k := StateHasReduction(pip.g, pip.cs, start, pip.states, pip.scs[z].state, pip.ConfigAt(z));
  }

  lemma TwoActionsClash(lg: LaneGraph, pip: ParserInProgress, s: nat, k: nat, l: nat, t: int)
    requires lg.Valid() && s < |pip.states| && StateIsConflictFree(lg, pip, s) && pip.g.IsTerminal(t)
    requires k < |pip.states[s].actions| && l < |pip.states[s].actions| && k != l
    requires IsPossible(lg, pip, s, pip.states[s].actions[k], t)
    ensures !IsPossible(lg, pip, s, pip.states[s].actions[l], t)
  {
    hide IsPossible;
    var a, b := pip.states[s].actions[k], pip.states[s].actions[l];
    assert !MayClash(lg, pip, s, a, b) || !MayClash(lg, pip, s, b, a);
  }

  // ----- the parser with one terminal next -----

  /** The machine with its lane graph; `t` is the terminal that comes next. */
  ghost predicate IsMachine(
      lg: LaneGraph, pip: ParserInProgress, og: ParserGraph, firstSets: seq<set<int>>, start: nat, t: int) {
    IsSetUp(lg, pip, og, firstSets, start) && lg.Valid() && pip.Valid() && pip.g.IsTerminal(t)
  }

  ghost predicate HasConfig(pip: ParserInProgress, z: nat, p: nat, dot: nat) {
    && pip.IsAddress(z) && 0 <= pip.ConfigAt(z) < |pip.cs| && pip.cs[pip.ConfigAt(z)] == Config(p, dot)
    && p < |pip.g.productions| && dot <= |pip.g.productions[p].rhs|
  }

  /** The address is one of the state on top of the stack of states. */
  ghost predicate IsOnTop(pip: ParserInProgress, st: seq<nat>, z: nat) {
    st != [] && z < |pip.scs| && pip.scs[z].state == st[|st| - 1]
  }

  /** Before `t` the parser reduces by the complete config at `z`. */
  ghost predicate Reduces(lg: LaneGraph, pip: ParserInProgress, t: int, st: seq<nat>, next: seq<nat>, z: nat)
    requires lg.Valid()
  {
    && IsOnTop(pip, st, z) && pip.IsAddress(z) && IsComplete(pip.g, pip.cs, pip.ConfigAt(z)) && InContext(lg, z, t)
    && var p := pip.cs[pip.ConfigAt(z)].production;
       var n := |pip.g.productions[p].rhs|;
       && n < |st| && |next| == |st| - n + 1 && next[..|st| - n] == st[..|st| - n] && st[|st| - n - 1] < |pip.states|
       && HasShift(pip.states[st[|st| - n - 1]], pip.g.productions[p].lhs, next[|st| - n])
  }

  ghost predicate IsReduction(lg: LaneGraph, pip: ParserInProgress, t: int, st: seq<nat>, next: seq<nat>)
    requires lg.Valid()
  {
    exists z: nat :: Reduces(lg, pip, t, st, next, z)
  }

  /** Before `t` the parser shifts. */
  ghost predicate MayShift(pip: ParserInProgress, t: int, st: seq<nat>) {
    && st != [] && st[|st| - 1] < |pip.states|
    && var actions := pip.states[st[|st| - 1]].actions;
       exists k :: 0 <= k < |actions| && actions[k].action.Shift? && t in actions[k].context
  }

  ghost predicate IsParseStep(lg: LaneGraph, pip: ParserInProgress, t: int, run: seq<seq<nat>>, i: int)
    requires lg.Valid()
  {
    0 <= i < |run| - 1 ==> IsReduction(lg, pip, t, run[i], run[i + 1])
  }

  /** The stacks while the parser reduces before `t`; after the first they are higher than that. */
  ghost predicate IsParse(
      lg: LaneGraph, pip: ParserInProgress, t: int, run: seq<seq<nat>>, from: seq<nat>, to: seq<nat>)
    requires lg.Valid()
  {
    && run != [] && run[0] == from && run[|run| - 1] == to
    && (forall i {:trigger IsParseStep(lg, pip, t, run, i)} :: IsParseStep(lg, pip, t, run, i))
    && (forall i :: 0 < i < |run| ==> |from| < |run[i]|)
  }

  lemma NoParse(lg: LaneGraph, pip: ParserInProgress, t: int, st: seq<nat>)
    requires lg.Valid()
    ensures IsParse(lg, pip, t, [st], st, st)
  {
  }

  lemma ParsesJoin(
      lg: LaneGraph, pip: ParserInProgress, t: int, run: seq<seq<nat>>, rest: seq<seq<nat>>, from: seq<nat>,
      via: seq<nat>, to: seq<nat>)
    requires lg.Valid() && IsParse(lg, pip, t, run, from, via) && IsParse(lg, pip, t, rest, via, to)
    requires |from| <= |via| && (|run| == 1 ==> |from| == |via|)
    ensures IsParse(lg, pip, t, run + rest[1..], from, to)
  {
    var joined := run + rest[1..];
    var n := |run| - 1;
    assert forall i :: 0 <= i < |rest| ==> joined[n + i] == rest[i];
    forall i
      ensures IsParseStep(lg, pip, t, joined, i)
    {
      assert IsParseStep(lg, pip, t, run, i) && IsParseStep(lg, pip, t, rest, i - n);
      if n <= i < |joined| - 1 {
        assert joined[i] == rest[i - n] && joined[i + 1] == rest[i - n + 1];
      }
    }
    forall i | 0 < i < |joined|
      ensures |from| < |joined[i]|
    {
      if |run| <= i {
        assert joined[i] == rest[i - n];
      }
    }
  }

  lemma ParseGoesOn(
      lg: LaneGraph, pip: ParserInProgress, t: int, run: seq<seq<nat>>, from: seq<nat>, via: seq<nat>, to: seq<nat>)
    requires lg.Valid() && IsParse(lg, pip, t, run, from, via) && IsReduction(lg, pip, t, via, to) && |from| < |to|
    ensures IsParse(lg, pip, t, run + [to], from, to)
  {
    var longer := run + [to];
    forall i
      ensures IsParseStep(lg, pip, t, longer, i)
    {
      assert IsParseStep(lg, pip, t, run, i);
    }
  }

  // ----- where the parser goes -----

  lemma TransitionExists(
      g: Grammar, cs: Configs, start: nat, states: seq<State>, s: nat, c: int, x: int)
    returns (q: nat)
    requires AreConfigs(g, cs) && IsLr0Machine(g, cs, start, states) && s < |states|
    requires c in states[s].configs && Expects(g, cs, c, x)
    ensures q < |states| && HasShift(states[s], x, q)
    ensures IsGoto(g, cs, Elements(states[s].configs), x, Elements(states[q].configs))
    ensures IsFollowedByAdvance(g, cs, c) && c + 1 in states[q].configs
  {
    var from := Elements(states[s].configs);
    var symbols, shifts := ShiftsOf(g, cs, start, states, s);
    assert c in from && x in TransitionSymbols(g, cs, from);
    assert x in Elements(symbols);
    var k :| 0 <= k < |symbols| && symbols[k] == x;
    q := shifts[k].action.nextState;
    assert ItemsOf(states)[q] == states[q].configs;
    ShiftsAreGotos(g, cs, start, states, s, x, q);
    assert IsFollowedByAdvance(g, cs, c);
    assert c + 1 in KernelAfter(g, cs, from, x);
    assert c + 1 in Elements(states[q].configs);
  }

  /** Moving the dot over a symbol leads to an address of the next state with the same contexts. */
  lemma DotMoves(
      lg: LaneGraph, pip: ParserInProgress, og: ParserGraph, firstSets: seq<set<int>>, start: nat, t: int,
      z: nat, p: nat, dot: nat)
    returns (q: nat, next: nat)
    requires IsMachine(lg, pip, og, firstSets, start, t) && HasConfig(pip, z, p, dot)
    requires dot < |pip.g.productions[p].rhs|
    ensures q < |pip.states| && HasShift(pip.states[pip.scs[z].state], pip.g.productions[p].rhs[dot], q)
    ensures HasConfig(pip, next, p, dot + 1) && pip.scs[next].state == q
    ensures InContext(lg, z, t) ==> InContext(lg, next, t)
  {
    hide IsLr0Machine, IsGoto, HasShift, AddressesMatch, IsTransitionPredecessor, InContext, Exact, IsOriginatorGraph,
      MarksExactly;
    var s, c, x := pip.scs[z].state, pip.ConfigAt(z), pip.g.productions[p].rhs[dot];
    q := TransitionExists(pip.g, pip.cs, start, pip.states, s, c, x);
    next := AddressOf(pip, q, c + 1);
    AdvanceIsPredecessor(pip, start, s, q, x, c, next, z);
    if InContext(lg, z, t) {
      ContextsMoveOn(lg, pip, og, firstSets, next, z, t);
    }
  }

  /** What may follow the symbol that `z` expects is a context of each production of that symbol. */
  lemma DotStarts(
      lg: LaneGraph, pip: ParserInProgress, og: ParserGraph, firstSets: seq<set<int>>, start: nat, t: int,
      z: nat, p: nat, dot: nat, r: nat)
    returns (first: nat)
    requires IsMachine(lg, pip, og, firstSets, start, t) && HasConfig(pip, z, p, dot) && z < |lg.og|
    requires dot < |pip.g.productions[p].rhs| && r < |pip.g.productions|
    requires pip.g.productions[r].lhs == pip.g.productions[p].rhs[dot]
    ensures HasConfig(pip, first, r, 0) && pip.scs[first].state == pip.scs[z].state
    ensures t in lg.first[z] || (NULL in lg.first[z] && InContext(lg, z, t)) ==> InContext(lg, first, t)
  {
    hide IsLr0Machine, AddressesMatch, InContext, Exact, ComesFrom;
    var g, cs, s, c := pip.g, pip.cs, pip.scs[z].state, pip.ConfigAt(z);
    var x: int := g.productions[r].lhs;
    assert Config(r, 0) in cs;
    var d :| 0 <= d < |cs| && cs[d] == Config(r, 0);
    assert c in Elements(pip.states[s].configs) && Expects(g, cs, c, x) && Starts(g, cs, d, x);
    StateIsClosed(g, cs, start, pip.states, s);
    assert IsExpanded(g, cs, Elements(pip.states[s].configs), c);
    first := AddressOf(pip, s, d);
    assert IsImmediatePredecessor(pip, first, z);
    ComesFromItself(pip, first);
    assert HasEdge(lg.og, first, z);
    if t in lg.first[z] {
      FirstIsContext(lg, first, z, t);
    } else if NULL in lg.first[z] && InContext(lg, z, t) {
      StepLeads(lg, first, z);
      LeadsIsReaches(lg, first, z);
      ContextsFlow(lg, first, z, t);
    }
  }

  lemma StateIsClosed(g: Grammar, cs: Configs, start: nat, states: seq<State>, s: nat)
    requires IsLr0Machine(g, cs, start, states) && s < |states|
    ensures IsClosed(g, cs, Elements(states[s].configs))
  {
    var items := ItemsOf(states);
    if s > 0 {
      assert HasParent(g, cs, items, s);
    }
    assert items[s] == states[s].configs;
  }

  // ----- how the parser gets past a string that derives nothing, and up to a shift -----

  /** The trees derive the rest of the production, from the dot of `z` on. */
  ghost predicate IsRest(pip: ParserInProgress, z: nat, p: nat, dot: nat, ts: seq<Tree>) {
    HasConfig(pip, z, p, dot) && Derives(pip.g, pip.g.productions[p].rhs[dot..], ts)
  }

  /** What leads the rest after the next symbol is in the FIRST set of `z`. */
  lemma RestIsInFirst(
      lg: LaneGraph, pip: ParserInProgress, og: ParserGraph, firstSets: seq<set<int>>, start: nat, t: int,
      z: nat, p: nat, dot: nat, ts: seq<Tree>, x: int)
    requires IsMachine(lg, pip, og, firstSets, start, t) && IsRest(pip, z, p, dot, ts) && ts != [] && z < |lg.og|
    requires LeadsWith(YieldAll(ts[1..]), x) && (x == FIRST_NULL || pip.g.IsTerminal(x))
    ensures x in lg.first[z]
  {
    hide IsLr0Machine, AddressesMatch, Exact, IsOriginatorGraph, MarksExactly, Derives, YieldAll, FirstOfString;
    var rhs := pip.g.productions[p].rhs;
    RestDerives(pip.g, rhs, dot, ts);
    assert FollowString(pip, z) == rhs[dot + 1..];
    FirstOfFollow(lg, pip, og, firstSets, z, x);
  }

  lemma {:induction false} RestDerives(g: Grammar, rhs: seq<nat>, dot: nat, ts: seq<Tree>)
    requires dot <= |rhs| && Derives(g, rhs[dot..], ts) && ts != []
    ensures dot < |rhs| && Derives(g, rhs[dot + 1..], ts[1..])
    ensures IsDerivation(g, ts[0]) && Root(g, ts[0]) == rhs[dot]
  {
    assert rhs[dot..][0] == rhs[dot];
    forall i | 0 <= i < |ts| - 1
      ensures ts[1..][i] == ts[i + 1] && rhs[dot + 1..][i] == rhs[dot..][i + 1]
    {
    }
  }

  lemma SymbolVanishes(
      lg: LaneGraph, pip: ParserInProgress, og: ParserGraph, firstSets: seq<set<int>>, start: nat, t: int,
      z: nat, p: nat, dot: nat, tree: Tree, st: seq<nat>, q: nat)
    returns (run: seq<seq<nat>>)
    requires IsMachine(lg, pip, og, firstSets, start, t) && HasConfig(pip, z, p, dot) && z < |lg.og|
    requires dot < |pip.g.productions[p].rhs| && IsOnTop(pip, st, z)
    requires IsDerivation(pip.g, tree) && Root(pip.g, tree) == pip.g.productions[p].rhs[dot] && Yield(tree) == []
    requires t in lg.first[z] || (NULL in lg.first[z] && InContext(lg, z, t))
    requires HasShift(pip.states[pip.scs[z].state], pip.g.productions[p].rhs[dot], q)
    ensures IsParse(lg, pip, t, run, st, st + [q])
    decreases tree
  {
    hide IsSetUp, ParserInProgress.Valid, InContext, HasShift, LaneGraph.Valid, IsParse;
    match tree
    case Node(r, children) =>
      assert pip.g.productions[r].rhs[0..] == pip.g.productions[r].rhs;
      var first := DotStarts(lg, pip, og, firstSets, start, t, z, p, dot, r);
      var path, last;
      run, path, last := RestVanishes(lg, pip, og, firstSets, start, t, first, r, 0, children, st);
      ReduceAtEnd(lg, pip, t, st, path, q, last, r);
      ParseGoesOn(lg, pip, t, run, st, st + path, st + [q]);
      run := run + [st + [q]];
  }

  lemma ReduceAtEnd(
      lg: LaneGraph, pip: ParserInProgress, t: int, st: seq<nat>, path: seq<nat>, q: nat, last: nat, r: nat)
    requires lg.Valid() && st != [] && st[|st| - 1] < |pip.states| && IsOnTop(pip, st + path, last)
    requires r < |pip.g.productions| && |path| == |pip.g.productions[r].rhs|
    requires HasConfig(pip, last, r, |pip.g.productions[r].rhs|) && InContext(lg, last, t)
    requires HasShift(pip.states[st[|st| - 1]], pip.g.productions[r].lhs, q)
    ensures IsReduction(lg, pip, t, st + path, st + [q])
  {
    assert (st + path)[..|st|] == st && (st + [q])[..|st|] == st;
    assert Reduces(lg, pip, t, st + path, st + [q], last);
  }

  lemma RestVanishes(
      lg: LaneGraph, pip: ParserInProgress, og: ParserGraph, firstSets: seq<set<int>>, start: nat, t: int,
      z: nat, p: nat, dot: nat, ts: seq<Tree>, st: seq<nat>)
    returns (run: seq<seq<nat>>, path: seq<nat>, last: nat)
    requires IsMachine(lg, pip, og, firstSets, start, t) && IsRest(pip, z, p, dot, ts) && YieldAll(ts) == []
    requires IsOnTop(pip, st, z) && InContext(lg, z, t)
    ensures |path| == |ts| && IsParse(lg, pip, t, run, st, st + path) && IsOnTop(pip, st + path, last)
    ensures HasConfig(pip, last, p, |pip.g.productions[p].rhs|) && InContext(lg, last, t)
    decreases ts
  {
    hide IsSetUp, ParserInProgress.Valid, InContext, HasShift, LaneGraph.Valid, IsParse, Derives;
    if ts == [] {
      run, path, last := [st], [], z;
      RestIsOver(pip, z, p, dot);
      assert st + [] == st;
      NoParse(lg, pip, t, st);
    } else {
      AddressIsInGraph(lg, pip, og, firstSets, start, t, z);
      RestDerives(pip.g, pip.g.productions[p].rhs, dot, ts);
      var q, next := DotMoves(lg, pip, og, firstSets, start, t, z, p, dot);
      RestIsInFirst(lg, pip, og, firstSets, start, t, z, p, dot, ts, FIRST_NULL);
      var run1 := SymbolVanishes(lg, pip, og, firstSets, start, t, z, p, dot, ts[0], st, q);
      var rest, above;
      rest, above, last := RestVanishes(lg, pip, og, firstSets, start, t, next, p, dot + 1, ts[1..], st + [q]);
      path := [q] + above;
      assert (st + [q]) + above == st + path;
      run := JoinAfterSymbol(lg, pip, t, run1, rest, st, q, st + path);
    }
  }

  lemma AddressIsInGraph(
      lg: LaneGraph, pip: ParserInProgress, og: ParserGraph, firstSets: seq<set<int>>, start: nat, t: int, z: nat)
    requires IsMachine(lg, pip, og, firstSets, start, t) && pip.IsAddress(z)
    ensures z < |lg.og|
  {
  }

  lemma RestIsOver(pip: ParserInProgress, z: nat, p: nat, dot: nat)
    requires IsRest(pip, z, p, dot, [])
    ensures dot == |pip.g.productions[p].rhs|
  {
  }

  lemma JoinAfterSymbol(
      lg: LaneGraph, pip: ParserInProgress, t: int, run: seq<seq<nat>>, rest: seq<seq<nat>>, st: seq<nat>, q: nat,
      to: seq<nat>)
    returns (joined: seq<seq<nat>>)
    requires lg.Valid() && IsParse(lg, pip, t, run, st, st + [q]) && IsParse(lg, pip, t, rest, st + [q], to)
    ensures IsParse(lg, pip, t, joined, st, to)
  {
    joined := run + rest[1..];
    ParsesJoin(lg, pip, t, run, rest, st, st + [q], to);
  }

  lemma SymbolLeads(
      lg: LaneGraph, pip: ParserInProgress, og: ParserGraph, firstSets: seq<set<int>>, start: nat, t: int,
      z: nat, p: nat, dot: nat, tree: Tree, st: seq<nat>)
    returns (run: seq<seq<nat>>, to: seq<nat>)
    requires IsMachine(lg, pip, og, firstSets, start, t) && HasConfig(pip, z, p, dot) && z < |lg.og|
    requires dot < |pip.g.productions[p].rhs| && IsOnTop(pip, st, z)
    requires IsDerivation(pip.g, tree) && Root(pip.g, tree) == pip.g.productions[p].rhs[dot]
    requires LeadsWith(Yield(tree), t) && t != FIRST_NULL
    ensures IsParse(lg, pip, t, run, st, to) && MayShift(pip, t, to)
    decreases tree
  {
    hide IsSetUp, ParserInProgress.Valid, InContext, LaneGraph.Valid, IsParse, IsMachine;
    match tree
    case Open(s) =>
      var q, next := DotMoves(lg, pip, og, firstSets, start, t, z, p, dot);
      run, to := [st], st;
      HasIt(lg, pip, og, firstSets, start, t);
      NoParse(lg, pip, t, st);
      ShiftIsThere(pip, t, st, z, q);
    case Node(r, children) =>
      assert pip.g.productions[r].rhs[0..] == pip.g.productions[r].rhs;
      var first := DotStarts(lg, pip, og, firstSets, start, t, z, p, dot, r);
      run, to := RestLeads(lg, pip, og, firstSets, start, t, first, r, 0, children, st);
  }

  lemma HasIt(
      lg: LaneGraph, pip: ParserInProgress, og: ParserGraph, firstSets: seq<set<int>>, start: nat, t: int)
    requires IsMachine(lg, pip, og, firstSets, start, t)
    ensures lg.Valid() && pip.Valid()
  {
  }

  lemma ShiftIsThere(pip: ParserInProgress, t: int, st: seq<nat>, z: nat, q: nat)
    requires pip.IsAddress(z) && IsOnTop(pip, st, z) && HasShift(pip.states[pip.scs[z].state], t, q)
    ensures MayShift(pip, t, st)
  {
    var actions := pip.states[pip.scs[z].state].actions;
    var k :| 0 <= k < |actions| && actions[k] == ActionInProgress(Shift(q), {t});
    assert t in actions[k].context;
  }

  lemma RestLeads(
      lg: LaneGraph, pip: ParserInProgress, og: ParserGraph, firstSets: seq<set<int>>, start: nat, t: int,
      z: nat, p: nat, dot: nat, ts: seq<Tree>, st: seq<nat>)
    returns (run: seq<seq<nat>>, to: seq<nat>)
    requires IsMachine(lg, pip, og, firstSets, start, t) && IsRest(pip, z, p, dot, ts)
    requires LeadsWith(YieldAll(ts), t) && t != FIRST_NULL && IsOnTop(pip, st, z)
    ensures IsParse(lg, pip, t, run, st, to) && MayShift(pip, t, to)
    decreases ts
  {
    hide IsSetUp, ParserInProgress.Valid, InContext, HasShift, LaneGraph.Valid, IsParse, Derives, MayShift;
    AddressIsInGraph(lg, pip, og, firstSets, start, t, z);
    RestDerives(pip.g, pip.g.productions[p].rhs, dot, ts);
    if Yield(ts[0]) == [] {
      var q, next := DotMoves(lg, pip, og, firstSets, start, t, z, p, dot);
      RestIsInFirst(lg, pip, og, firstSets, start, t, z, p, dot, ts, t);
      var run1 := SymbolVanishes(lg, pip, og, firstSets, start, t, z, p, dot, ts[0], st, q);
      var rest;
      rest, to := RestLeads(lg, pip, og, firstSets, start, t, next, p, dot + 1, ts[1..], st + [q]);
      run := JoinAfterSymbol(lg, pip, t, run1, rest, st, q, to);
    } else {
      run, to := SymbolLeads(lg, pip, og, firstSets, start, t, z, p, dot, ts[0], st);
    }
  }

  // ----- without conflicts the parser has no choice -----

  ghost predicate IsDecided(lg: LaneGraph, pip: ParserInProgress, start: nat, t: int) {
    && lg.Valid() && pip.Valid() && IsLr0Machine(pip.g, pip.cs, start, pip.states) && pip.g.IsTerminal(t)
    && IsConflictFree(lg, pip)
  }

  /** Two complete configs of a state with a context in common are one. */
  lemma OneReducible(lg: LaneGraph, pip: ParserInProgress, start: nat, t: int, z: nat, w: nat)
    requires IsDecided(lg, pip, start, t) && pip.IsAddress(z) && pip.IsAddress(w)
    requires pip.scs[z].state == pip.scs[w].state
    requires IsComplete(pip.g, pip.cs, pip.ConfigAt(z)) && IsComplete(pip.g, pip.cs, pip.ConfigAt(w))
    requires InContext(lg, z, t) && InContext(lg, w, t)
    ensures z == w
  {
    hide ParserInProgress.Valid, IsLr0Machine, IsComplete, InContext, IsReductionOf;
    var s := pip.scs[z].state;
    var k := CompleteHasReduction(pip, start, z);
    var l := CompleteHasReduction(pip, start, w);
    IsPossibleAt(lg, pip, s, z, k, t);
    IsPossibleAt(lg, pip, s, w, l, t);
    if k != l {
      TwoActionsClash(lg, pip, s, k, l, t);
    }
    OneReductionAddress(pip, s, z, w, pip.states[s].actions[k]);
  }

  lemma IsPossibleAt(lg: LaneGraph, pip: ParserInProgress, s: nat, z: nat, k: nat, t: int)
    requires lg.Valid() && s < |pip.states| && k < |pip.states[s].actions|
    requires IsReductionOf(pip, s, z, pip.states[s].actions[k]) && InContext(lg, z, t)
    ensures IsPossible(lg, pip, s, pip.states[s].actions[k], t) && !pip.states[s].actions[k].action.Shift?
  {
  }

  lemma OneTransition(pip: ParserInProgress, start: nat, s: nat, x: int, q: nat, r: nat)
    requires IsLr0Machine(pip.g, pip.cs, start, pip.states) && s < |pip.states|
    requires HasShift(pip.states[s], x, q) && HasShift(pip.states[s], x, r)
    ensures q == r
  {
    hide IsLr0Machine;
    var actions := pip.states[s].actions;
    var k :| 0 <= k < |actions| && actions[k] == ActionInProgress(Shift(q), {x});
    var l :| 0 <= l < |actions| && actions[l] == ActionInProgress(Shift(r), {x});
    if k < l {
      ShiftsAreDeterministic(pip.g, pip.cs, start, pip.states, s, k, l);
    } else if l < k {
      ShiftsAreDeterministic(pip.g, pip.cs, start, pip.states, s, l, k);
    }
  }

  lemma ReducesOneWay(
      lg: LaneGraph, pip: ParserInProgress, start: nat, t: int, st: seq<nat>, a: seq<nat>, b: seq<nat>, z: nat, w: nat)
    requires IsDecided(lg, pip, start, t) && Reduces(lg, pip, t, st, a, z) && Reduces(lg, pip, t, st, b, w)
    ensures z == w && a == b
  {
    hide ParserInProgress.Valid, IsLr0Machine, InContext, HasShift, IsConflictFree;
    OneReducible(lg, pip, start, t, z, w);
    var p := pip.cs[pip.ConfigAt(z)].production;
    var n := |st| - |pip.g.productions[p].rhs|;
    OneTransition(pip, start, st[n - 1], pip.g.productions[p].lhs, a[n], b[n]);
    assert a == a[..n] + [a[n]] && b == b[..n] + [b[n]];
  }

  /** The parser does not both shift and reduce. */
  lemma ShiftsOrReduces(
      lg: LaneGraph, pip: ParserInProgress, start: nat, t: int, st: seq<nat>, z: nat)
    requires IsDecided(lg, pip, start, t) && IsOnTop(pip, st, z) && pip.IsAddress(z)
    requires IsComplete(pip.g, pip.cs, pip.ConfigAt(z)) && InContext(lg, z, t)
    ensures !MayShift(pip, t, st)
  {
    hide ParserInProgress.Valid, IsLr0Machine, IsComplete, InContext, IsReductionOf;
    var s := st[|st| - 1];
    var l := CompleteHasReduction(pip, start, z);
    IsPossibleAt(lg, pip, s, z, l, t);
    forall k: nat | k < |pip.states[s].actions| && pip.states[s].actions[k].action.Shift?
      ensures t !in pip.states[s].actions[k].context
    {
      TwoActionsClash(lg, pip, s, l, k, t);
    }
  }

  lemma ParseStepAt(
      lg: LaneGraph, pip: ParserInProgress, t: int, run: seq<seq<nat>>, from: seq<nat>, to: seq<nat>, i: nat)
    returns (z: nat)
    requires lg.Valid() && IsParse(lg, pip, t, run, from, to) && i + 1 < |run|
    ensures Reduces(lg, pip, t, run[i], run[i + 1], z) && |from| < |run[i + 1]|
  {
    assert IsParseStep(lg, pip, t, run, i);
    z :| Reduces(lg, pip, t, run[i], run[i + 1], z);
  }

  lemma ParsesAgree(
      lg: LaneGraph, pip: ParserInProgress, start: nat, t: int, run: seq<seq<nat>>, other: seq<seq<nat>>,
      from: seq<nat>, to: seq<nat>, end: seq<nat>, i: nat)
    requires IsDecided(lg, pip, start, t)
    requires IsParse(lg, pip, t, run, from, to) && IsParse(lg, pip, t, other, from, end) && i < |run| && i < |other|
    ensures run[i] == other[i]
  {
    hide IsDecided, Reduces, IsParse;
    DecidedHas(lg, pip, start, t);
    if i > 0 {
      ParsesAgree(lg, pip, start, t, run, other, from, to, end, i - 1);
      var z := ParseStepAt(lg, pip, t, run, from, to, i - 1);
      var w := ParseStepAt(lg, pip, t, other, from, end, i - 1);
      ReducesOneWay(lg, pip, start, t, run[i - 1], run[i], other[i], z, w);
    } else {
      assert run[0] == other[0] by {
        ParseStarts(lg, pip, t, run, from, to);
        ParseStarts(lg, pip, t, other, from, end);
      }
    }
  }

  lemma DecidedHas(lg: LaneGraph, pip: ParserInProgress, start: nat, t: int)
    requires IsDecided(lg, pip, start, t)
    ensures lg.Valid() && pip.Valid()
  {
  }

  lemma ParseStarts(
      lg: LaneGraph, pip: ParserInProgress, t: int, run: seq<seq<nat>>, from: seq<nat>, to: seq<nat>)
    requires lg.Valid() && IsParse(lg, pip, t, run, from, to)
    ensures run != [] && run[0] == from && run[|run| - 1] == to
  {
  }

  /** The parser cannot both get to the end of a production that has begun below, and up to a shift. */
  lemma EndOrShift(
      lg: LaneGraph, pip: ParserInProgress, start: nat, t: int, run: seq<seq<nat>>, other: seq<seq<nat>>,
      st: seq<nat>, path: seq<nat>, end: seq<nat>, z: nat, p: nat)
    requires IsDecided(lg, pip, start, t)
    requires IsParse(lg, pip, t, run, st, st + path) && IsParse(lg, pip, t, other, st, end)
    requires IsOnTop(pip, st + path, z) && p < |pip.g.productions| && |path| < |pip.g.productions[p].rhs|
    requires HasConfig(pip, z, p, |pip.g.productions[p].rhs|) && InContext(lg, z, t)
    ensures !MayShift(pip, t, end)
  {
    hide IsDecided, IsParse, MayShift, InContext;
    DecidedHas(lg, pip, start, t);
    ParseStarts(lg, pip, t, run, st, st + path);
    ParseStarts(lg, pip, t, other, st, end);
    if |other| <= |run| {
      ParsesAgree(lg, pip, start, t, run, other, st, st + path, end, |other| - 1);
      var w := z;
      if |other| < |run| {
        w := ParseStepAt(lg, pip, t, run, st, st + path, |other| - 1);
      }
      ShiftsOrReduces(lg, pip, start, t, end, w);
    } else {
      ParsesAgree(lg, pip, start, t, run, other, st, st + path, end, |run| - 1);
      var w := ParseStepAt(lg, pip, t, other, st, end, |run| - 1);
      OneReducible(lg, pip, start, t, z, w);
      assert false;
    }
  }

  // ----- an ambiguity is a conflict -----

  /** If `t` can follow the symbol after the dot at `w`, and nothing can, and `t` is a context of `w`, the parser does
      not know to which of two `t` belongs. */
  lemma AmbiguityIsConflict(
      lg: LaneGraph, pip: ParserInProgress, og: ParserGraph, firstSets: seq<set<int>>, start: nat, w: nat, t: int)
    requires IsMachine(lg, pip, og, firstSets, start, t) && w < |lg.og|
    requires NULL in lg.first[w] && t in lg.first[w] && t != NULL && InContext(lg, w, t)
    ensures !IsConflictFree(lg, pip)
  {
    hide IsConflictFree, InContext, IsParse, MayShift, IsLr0Machine, Exact, HasShift, InFirst;
    var p, dot := pip.cs[pip.ConfigAt(w)].production, pip.cs[pip.ConfigAt(w)].dot;
    FirstOfFollow(lg, pip, og, firstSets, w, FIRST_NULL);
    FirstOfFollow(lg, pip, og, firstSets, w, t);
    NothingIsNoTerminal(pip.g, t);
    assert HasConfig(pip, w, p, dot);
    var rhs := pip.g.productions[p].rhs;
    assert dot + 1 < |rhs| && FollowString(pip, w) == rhs[dot + 1..];
    var empty := DerivationOf(pip.g, rhs[dot + 1..], FIRST_NULL);
    var full := DerivationOf(pip.g, rhs[dot + 1..], t);
    var q, next := DotMoves(lg, pip, og, firstSets, start, t, w, p, dot);
    var run, path, last := RestVanishes(lg, pip, og, firstSets, start, t, next, p, dot + 1, empty, [q]);
    var other, end := RestLeads(lg, pip, og, firstSets, start, t, next, p, dot + 1, full, [q]);
    if IsConflictFree(lg, pip) {
      EndOrShift(lg, pip, start, t, run, other, [q], path, end, last, p);
    }
  }

  lemma NothingIsNoTerminal(g: Grammar, t: int)
    requires t != FIRST_NULL
    ensures !InFirst(g, [], t)
  {
  }

  lemma DerivationOf(g: Grammar, str: seq<nat>, x: int) returns (ts: seq<Tree>)
    requires InFirst(g, str, x)
    ensures Derives(g, str, ts) && LeadsWith(YieldAll(ts), x)
  {
    ts :| Derives(g, str, ts) && LeadsWith(YieldAll(ts), x);
  }

  /** What lane tracing reports as an ambiguity is one: the grammar has a conflict by its contexts. */
  lemma ReportedAmbiguityIsConflict(
      lg: LaneGraph, pip: ParserInProgress, og: ParserGraph, firstSets: seq<set<int>>, start: nat)
    requires IsSetUp(lg, pip, og, firstSets, start) && lg.Valid() && IsAmbiguous(lg)
    ensures !IsConflictFree(lg, pip)
  {
    hide IsConflictFree, IsLr0Machine, Exact, InFirst, Leads;
    var w: nat :| w < |lg.og| && Leads(lg, w, w) && NULL in lg.first[w] && lg.first[w] != {NULL};
    var t := OtherElement(lg.first[w]);
    FollowsOnCycle(lg, w, t);
    FirstOfFollow(lg, pip, og, firstSets, w, t);
    FirstIsTerminal(pip.g, FollowString(pip, w), t);
    AmbiguityIsConflict(lg, pip, og, firstSets, start, w, t);
  }

  lemma FirstIsTerminal(g: Grammar, str: seq<nat>, t: int)
    requires InFirst(g, str, t) && t != FIRST_NULL
    ensures g.IsTerminal(t)
  {
  }

  lemma OtherElement(s: set<int>) returns (t: int)
    requires NULL in s && s != {NULL}
    ensures t in s && t != NULL
  {
    HasElement(s - {NULL});
    t :| t in s - {NULL};
  }

  /** What follows an address on a cycle is a context of it. */
  lemma FollowsOnCycle(lg: LaneGraph, w: nat, t: int)
    requires lg.Valid() && w < |lg.og| && Leads(lg, w, w) && t in lg.first[w] && t != NULL
    ensures InContext(lg, w, t)
  {
    var x: nat :| Continues(lg, w, x) && Reaches(lg, x, w);
    var path :| IsLane(lg, path, x, w);
    var z := w;
    ReachesItself(lg, w);
    if |path| > 1 {
      z := path[|path| - 2];
      var front := path[..|path| - 1];
      assert IsStep(lg, path, |path| - 2);
      forall i
        ensures IsStep(lg, front, i)
      {
        assert IsStep(lg, path, i);
      }
      assert IsLane(lg, front, x, z);
      assert IsLane(lg, [w, x], w, x);
      LanesJoin(lg, w, x, z);
    }
    assert Continues(lg, z, w);
    assert Contributes(lg, z, t);
  }
}
