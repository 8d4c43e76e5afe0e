/** The LR(0) machine (`make_configs`, `close`, `build_lr0_parser`): the states are exactly the
    canonical collection of closed config sets, each found once, with one transition for every
    symbol that follows a dot. */
module Lr0 {
  import opened Containers
  import opened Grammars

  /** A marked production; configs are referred to by index. */
  datatype Config = Config(production: nat, dot: nat)

  type Configs = seq<Config>

  datatype Action = Shift(nextState: nat) | Reduce(production: nat)

  datatype ActionInProgress = ActionInProgress(action: Action, context: set<int>)

  datatype State = State(configs: seq<int>, actions: seq<ActionInProgress>)

  // ----- configs -----

  /** Every way to mark one of the first `n` productions occurs once, and the one with the dot
      moved on comes next. */
  ghost predicate MarksExactly(g: Grammar, cs: Configs, n: nat) {
    && (forall c :: 0 <= c < |cs| ==>
          cs[c].production < n <= |g.productions| && cs[c].dot <= |Rhs(g, cs, c)|)
    && (forall c {:trigger IsFollowedByAdvance(g, cs, c)} :: 0 <= c < |cs| ==> IsFollowedByAdvance(g, cs, c))
    && (forall p, dot :: 0 <= p < n <= |g.productions| && 0 <= dot <= |g.productions[p].rhs| ==>
          Config(p, dot) in cs)
    && (forall c, d :: 0 <= c < d < |cs| ==> cs[c] != cs[d])
  }

  /** The config after `c` has the dot one place further, unless `c` is complete. */
  ghost predicate IsFollowedByAdvance(g: Grammar, cs: Configs, c: int) {
    0 <= c < |cs| && cs[c].production < |g.productions| && cs[c].dot < |Rhs(g, cs, c)| ==>
      c + 1 < |cs| && cs[c + 1] == Config(cs[c].production, cs[c].dot + 1)
  }

  ghost predicate AreConfigs(g: Grammar, cs: Configs) {
    MarksExactly(g, cs, |g.productions|)
  }

  function Rhs(g: Grammar, cs: Configs, c: int): seq<nat>
    requires 0 <= c < |cs| && cs[c].production < |g.productions|
  {
    g.productions[cs[c].production].rhs
  }

  function Lhs(g: Grammar, cs: Configs, c: int): nat
    requires 0 <= c < |cs| && cs[c].production < |g.productions|
  {
    g.productions[cs[c].production].lhs
  }

  ghost function Marked(g: Grammar, p: nat): (marked: Configs)
    requires p < |g.productions|
    ensures |marked| == |g.productions[p].rhs| + 1
    ensures forall dot :: 0 <= dot < |marked| ==> marked[dot] == Config(p, dot)
  {
    seq(|g.productions[p].rhs| + 1, (dot: nat) => Config(p, dot))
  }

  ghost function MarkedBefore(g: Grammar, n: nat): Configs
    requires n <= |g.productions|
  {
    if n == 0 then [] else MarkedBefore(g, n - 1) + Marked(g, n - 1)
  }

  lemma {:induction false} MarkedBeforeIsExact(g: Grammar, n: nat)
    requires n <= |g.productions|
    ensures MarksExactly(g, MarkedBefore(g, n), n)
  {
    if n > 0 {
      hide MarksExactly, Marked;
      MarkedBeforeIsExact(g, n - 1);
      AppendMarked(g, MarkedBefore(g, n - 1), n - 1);
    }
  }

  lemma AppendMarked(g: Grammar, before: Configs, p: nat)
    requires p < |g.productions| && MarksExactly(g, before, p)
    ensures MarksExactly(g, before + Marked(g, p), p + 1)
  {
    var marked, cs := Marked(g, p), before + Marked(g, p);
    assert forall c :: 0 <= c < |cs| ==>
      cs[c] == if c < |before| then before[c] else Config(p, c - |before|);
    forall c | 0 <= c < |cs|
      ensures IsFollowedByAdvance(g, cs, c)
    {
      assert IsFollowedByAdvance(g, before, c);
    }
    forall q, dot | 0 <= q <= p && 0 <= dot <= |g.productions[q].rhs|
      ensures Config(q, dot) in cs
    {
      if q == p {
        assert cs[|before| + dot] == Config(q, dot);
      }
    }
  }

  method MakeConfigs(g: Grammar) returns (cs: Configs)
    ensures AreConfigs(g, cs)
  {
    cs := [];
    for i := 0 to |g.productions|
      invariant cs == MarkedBefore(g, i)
    {
      ghost var before := cs;
      var rhs := g.productions[i].rhs;
      for j := 0 to |rhs| + 1
        invariant cs == before + Marked(g, i)[..j]
      {
        cs := cs + [Config(i, j)];
      }
    }
    MarkedBeforeIsExact(g, |g.productions|);
  }

  /** The symbol after the dot, or -1 when the dot is at the end. */
  function SymbolAfterDot(g: Grammar, cs: Configs, c: int): int {
    if 0 <= c < |cs| && cs[c].production < |g.productions| && cs[c].dot < |Rhs(g, cs, c)|
    then Rhs(g, cs, c)[cs[c].dot] else -1
  }

  predicate Expects(g: Grammar, cs: Configs, c: int, symbol: int) {
    0 <= symbol && SymbolAfterDot(g, cs, c) == symbol
  }

  predicate Starts(g: Grammar, cs: Configs, c: int, lhs: int) {
    && 0 <= c < |cs| && cs[c].production < |g.productions|
    && cs[c].dot == 0 && Lhs(g, cs, c) == lhs
  }

  ghost predicate IsStartGraph(g: Grammar, cs: Configs, lhs2sc: ParserGraph) {
    && |lhs2sc| == g.nsymbols
    && forall s: nat, c: nat :: s < g.nsymbols ==> (HasEdge(lhs2sc, s, c) <==> Starts(g, cs, c, s))
  }

  method GetLeftHandSidesToStartConfigs(g: Grammar, cs: Configs) returns (lhs2sc: ParserGraph)
    requires g.Valid() && AreConfigs(g, cs)
    ensures IsStartGraph(g, cs, lhs2sc)
  {
    lhs2sc := EmptyGraph(g.nsymbols);
    for c := 0 to |cs|
      invariant |lhs2sc| == g.nsymbols
      invariant forall s: nat, d: nat ::
        s < g.nsymbols ==> (HasEdge(lhs2sc, s, d) <==> d < c && Starts(g, cs, d, s))
    {
      if cs[c].dot > 0 {
        continue;
      }
      lhs2sc := AddEdge(lhs2sc, Lhs(g, cs, c), c);
    }
  }

  // ----- closures -----

  /** `s` holds the start configs of the nonterminal that config `c` expects. */
  ghost predicate IsExpanded(g: Grammar, cs: Configs, s: set<int>, c: int) {
    forall d, x: int :: Expects(g, cs, c, x) && !g.IsTerminal(x) && Starts(g, cs, d, x) ==> d in s
  }

  ghost predicate IsClosed(g: Grammar, cs: Configs, s: set<int>) {
    forall c :: c in s ==> IsExpanded(g, cs, s, c)
  }

  /** `closure` is the least closed set that includes `s`. */
  ghost predicate IsClosure(g: Grammar, cs: Configs, s: set<int>, closure: set<int>) {
    && s <= closure
    && IsClosed(g, cs, closure)
    && forall t :: s <= t && IsClosed(g, cs, t) ==> closure <= t
  }

  ghost predicate AreIndices(cs: Configs, v: seq<int>) {
    forall i :: 0 <= i < |v| ==> 0 <= v[i] < |cs|
  }

  /** Adds the configs of `starts` that are new, to the set and to the queue. */
  method Enqueue(starts: seq<nat>, configSet: set<int>, configQ: seq<int>)
    returns (bigger: set<int>, longer: seq<int>)
    ensures bigger == configSet + Elements(starts)
    ensures Elements(longer) == Elements(configQ) + (bigger - configSet)
    ensures bigger == configSet ==> longer == configQ
  {
    bigger, longer := configSet, configQ;
    for i := 0 to |starts|
      invariant bigger == configSet + Elements(starts[..i])
      invariant Elements(longer) == Elements(configQ) + (bigger - configSet)
      invariant bigger == configSet ==> longer == configQ
    {
      assert Elements(starts[..i + 1]) == Elements(starts[..i]) + {starts[i]};
      if starts[i] !in bigger {
        assert Elements(longer + [starts[i]]) == Elements(longer) + {starts[i]};
        bigger := bigger + {starts[i]};
        longer := longer + [starts[i]];
      }
    }
    assert starts[..|starts|] == starts;
  }

  method Close(kernel: seq<int>, g: Grammar, cs: Configs, lhs2sc: ParserGraph) returns (closed: seq<int>)
    requires g.Valid() && AreConfigs(g, cs) && IsStartGraph(g, cs, lhs2sc)
    requires AreIndices(cs, kernel)
    ensures StrictlyIncreasing(closed) && AreIndices(cs, closed)
    ensures IsClosure(g, cs, Elements(kernel), Elements(closed))
  {
    var configSet: set<int> := Elements(kernel);
    var configQ := kernel;
    while configQ != []
      invariant Elements(kernel) <= configSet <= Indices(|cs|)
      invariant Elements(configQ) <= configSet
      invariant forall c :: c in configSet - Elements(configQ) ==> IsExpanded(g, cs, configSet, c)
      invariant forall t :: Elements(kernel) <= t && IsClosed(g, cs, t) ==> configSet <= t
      decreases Indices(|cs|) - configSet, |configQ|
    {
      var c, rest := configQ[0], configQ[1..];
      assert Elements(configQ) == {c} + Elements(rest) by { assert configQ == [c] + rest; }
      configQ := rest;
      if cs[c].dot == |Rhs(g, cs, c)| {
        continue;
      }
      var symbol := Rhs(g, cs, c)[cs[c].dot];
      if g.IsTerminal(symbol) {
        continue;
      }
      var starts := lhs2sc[symbol];
      assert forall d: nat :: d in Elements(starts) <==> Starts(g, cs, d, symbol) by {
        assert forall d: nat :: HasEdge(lhs2sc, symbol, d) <==> d in starts;
      }
      ghost var before := configSet;
      configSet, configQ := Enqueue(starts, configSet, rest);
      assert forall d :: IsExpanded(g, cs, before, d) ==> IsExpanded(g, cs, configSet, d);
    }
    closed := ToVector(configSet);
    assert forall i :: 0 <= i < |closed| ==> closed[i] in configSet;
  }

  // ----- the canonical collection -----

  /** The configs of `items` that expect `x`, with the dot moved over it. */
  ghost function KernelAfter(g: Grammar, cs: Configs, items: set<int>, x: int): set<int> {
    set c | c in items && Expects(g, cs, c, x) :: c + 1
  }

  ghost function TransitionSymbols(g: Grammar, cs: Configs, items: set<int>): set<int> {
    set c | c in items && 0 <= SymbolAfterDot(g, cs, c) :: SymbolAfterDot(g, cs, c)
  }

  ghost predicate IsGoto(g: Grammar, cs: Configs, items: set<int>, x: int, next: set<int>) {
    x in TransitionSymbols(g, cs, items) && IsClosure(g, cs, KernelAfter(g, cs, items, x), next)
  }

  ghost predicate HasParent(g: Grammar, cs: Configs, items: seq<seq<int>>, i: nat)
    requires i < |items|
  {
    exists j: nat, x :: j < i && IsGoto(g, cs, Elements(items[j]), x, Elements(items[i]))
  }

  /** `items` lists the closed config sets of the states: the start state first, no two alike, and
      each later one reached from an earlier one. */
  ghost predicate IsCollection(g: Grammar, cs: Configs, start: nat, items: seq<seq<int>>) {
    && items != []
    && IsClosure(g, cs, {start}, Elements(items[0]))
    && (forall i :: 0 <= i < |items| ==> StrictlyIncreasing(items[i]) && AreIndices(cs, items[i]))
    && (forall i, j :: 0 <= i < j < |items| ==> items[i] != items[j])
    && (forall i :: 0 < i < |items| ==> HasParent(g, cs, items, i))
  }

  /** Shift `k` is on symbol `symbols[k]`, to the state with the goto set of that symbol. */
  ghost predicate AreShifts(g: Grammar, cs: Configs, items: seq<seq<int>>, from: set<int>,
                            symbols: seq<int>, shifts: seq<ActionInProgress>) {
    && |shifts| == |symbols|
    && forall k :: 0 <= k < |shifts| ==>
         && shifts[k].action.Shift? && shifts[k].context == {symbols[k]}
         && shifts[k].action.nextState < |items|
         && IsGoto(g, cs, from, symbols[k], Elements(items[shifts[k].action.nextState]))
  }

  /** `shifts` has exactly one transition for each symbol after a dot. */
  ghost predicate ShiftsAreComplete(g: Grammar, cs: Configs, items: seq<seq<int>>, from: set<int>,
                                    shifts: seq<ActionInProgress>) {
    exists symbols ::
      && StrictlyIncreasing(symbols) && Elements(symbols) == TransitionSymbols(g, cs, from)
      && AreShifts(g, cs, items, from, symbols, shifts)
  }

  ghost function ItemsOf(states: seq<State>): (items: seq<seq<int>>)
    ensures |items| == |states|
    ensures forall i :: 0 <= i < |items| ==> items[i] == states[i].configs
  {
    seq(|states|, i requires 0 <= i < |states| => states[i].configs)
  }

  /** The map from config vectors to state indices that stands in for `state_ptrs2idxs`. */
  ghost predicate IsStateIndex(states: seq<State>, index: map<seq<int>, nat>) {
    && (forall i :: 0 <= i < |states| ==> states[i].configs in index && index[states[i].configs] == i)
    && (forall v :: v in index ==> index[v] < |states| && states[index[v]].configs == v)
  }

  method NextKernel(g: Grammar, cs: Configs, configs: seq<int>, symbol: int) returns (kernel: seq<int>)
    requires AreConfigs(g, cs) && AreIndices(cs, configs) && 0 <= symbol
    ensures AreIndices(cs, kernel)
    ensures Elements(kernel) == KernelAfter(g, cs, Elements(configs), symbol)
  {
    kernel := [];
    for i := 0 to |configs|
      invariant AreIndices(cs, kernel)
      invariant Elements(kernel) == KernelAfter(g, cs, Elements(configs[..i]), symbol)
    {
      assert Elements(configs[..i + 1]) == Elements(configs[..i]) + {configs[i]};
      assert IsFollowedByAdvance(g, cs, configs[i]);
      if SymbolAfterDot(g, cs, configs[i]) == symbol {
        assert Elements(kernel + [configs[i] + 1]) == Elements(kernel) + {configs[i] + 1};
        kernel := kernel + [configs[i] + 1];
      }
    }
    assert configs[..|configs|] == configs;
  }

  method GetTransitionSymbols(g: Grammar, cs: Configs, configs: seq<int>) returns (symbols: seq<int>)
    requires AreIndices(cs, configs)
    ensures StrictlyIncreasing(symbols)
    ensures Elements(symbols) == TransitionSymbols(g, cs, Elements(configs))
  {
    var found: set<int> := {};
    for i := 0 to |configs|
      invariant found == TransitionSymbols(g, cs, Elements(configs[..i]))
    {
      assert Elements(configs[..i + 1]) == Elements(configs[..i]) + {configs[i]};
      var symbol := SymbolAfterDot(g, cs, configs[i]);
      if 0 <= symbol {
        found := found + {symbol};
      }
    }
    assert configs[..|configs|] == configs;
    symbols := ToVector(found);
  }

  /** The sets of configs that are not yet the set of some state. */
  ghost function Unseen(cs: Configs, items: seq<seq<int>>): set<set<int>> {
    (set s: set<int> | s <= Indices(|cs|)) - (set i | 0 <= i < |items| :: Elements(items[i]))
  }

  lemma NewStateShrinksUnseen(g: Grammar, cs: Configs, items: seq<seq<int>>, v: seq<int>)
    requires forall i :: 0 <= i < |items| ==> StrictlyIncreasing(items[i])
    requires StrictlyIncreasing(v) && AreIndices(cs, v) && v !in items
    ensures Unseen(cs, items + [v]) < Unseen(cs, items)
  {
    assert Elements(v) <= Indices(|cs|);
    forall i | 0 <= i < |items|
      ensures Elements(items[i]) != Elements(v)
    {
      if Elements(items[i]) == Elements(v) {
        IncreasingSeqsAreEqual(items[i], v);
      }
    }
    var grown := items + [v];
    assert Elements(v) in Unseen(cs, items);
    assert grown[|items|] == v;
    assert Elements(v) !in Unseen(cs, grown);
    forall i | 0 <= i < |items|
      ensures Elements(items[i]) in (set k | 0 <= k < |grown| :: Elements(grown[k]))
    {
      assert grown[i] == items[i];
    }
  }

  lemma GrownCollection(
      g: Grammar, cs: Configs, start: nat, items: seq<seq<int>>, from: nat, x: int, v: seq<int>)
    requires IsCollection(g, cs, start, items) && from < |items|
    requires IsGoto(g, cs, Elements(items[from]), x, Elements(v))
    requires StrictlyIncreasing(v) && AreIndices(cs, v) && v !in items
    ensures IsCollection(g, cs, start, items + [v])
  {
    var grown := items + [v];
    forall i | 0 < i < |grown|
      ensures HasParent(g, cs, grown, i)
    {
      if i < |items| {
        assert HasParent(g, cs, items, i);
        var j: nat, y :| j < i && IsGoto(g, cs, Elements(items[j]), y, Elements(items[i]));
        assert IsGoto(g, cs, Elements(grown[j]), y, Elements(grown[i]));
      } else {
        assert IsGoto(g, cs, Elements(grown[from]), x, Elements(grown[i]));
      }
    }
  }

  /** The later lists have all the earlier states; the states in between are new, still without
      actions, and queued in order. */
  ghost predicate Extends(cs: Configs, states: seq<State>, stateQ: seq<nat>,
                          states': seq<State>, stateQ': seq<nat>) {
    && ItemsOf(states) <= ItemsOf(states')
    && (forall i :: |states| <= i < |states'| ==> states'[i].actions == [])
    && stateQ <= stateQ' && |stateQ'| - |stateQ| == |states'| - |states|
    && (forall k :: |stateQ| <= k < |stateQ'| ==> stateQ'[k] == |states| + k - |stateQ|)
    && (ItemsOf(states') == ItemsOf(states) || Unseen(cs, ItemsOf(states')) < Unseen(cs, ItemsOf(states)))
  }

  /** Looks a config vector up among the states; a new one becomes a new state and is queued. */
  method FindOrAdd(g: Grammar, cs: Configs, ghost start: nat, ghost from: nat, ghost x: int, next: seq<int>,
                   states: seq<State>, index: map<seq<int>, nat>, stateQ: seq<nat>)
    returns (at: nat, states': seq<State>, index': map<seq<int>, nat>, stateQ': seq<nat>)
    requires IsCollection(g, cs, start, ItemsOf(states)) && IsStateIndex(states, index)
    requires StrictlyIncreasing(next) && AreIndices(cs, next) && from < |states|
    requires IsGoto(g, cs, Elements(states[from].configs), x, Elements(next))
    ensures IsCollection(g, cs, start, ItemsOf(states')) && IsStateIndex(states', index')
    ensures Extends(cs, states, stateQ, states', stateQ') && states <= states'
    ensures at < |states'| && states'[at].configs == next
  {
    states', index', stateQ' := states, index, stateQ;
    if next in index {
      at := index[next];
    } else {
      at := |states|;
      stateQ' := stateQ + [at];
      states' := states + [State(next, [])];
      index' := index[next := at];
      assert ItemsOf(states') == ItemsOf(states) + [next];
      GrownCollection(g, cs, start, ItemsOf(states), from, x, next);
      NewStateShrinksUnseen(g, cs, ItemsOf(states), next);
    }
  }

  /** Gives state `stateI` one more transition, on `symbol`. */
  method AddTransition(g: Grammar, cs: Configs, ghost start: nat, lhs2sc: ParserGraph, stateI: nat, symbol: int,
                       states: seq<State>, index: map<seq<int>, nat>, stateQ: seq<nat>)
    returns (at: nat, states': seq<State>, index': map<seq<int>, nat>, stateQ': seq<nat>)
    requires g.Valid() && AreConfigs(g, cs) && IsStartGraph(g, cs, lhs2sc)
    requires IsCollection(g, cs, start, ItemsOf(states)) && IsStateIndex(states, index)
    requires stateI < |states|
    requires symbol in TransitionSymbols(g, cs, Elements(states[stateI].configs))
    ensures IsCollection(g, cs, start, ItemsOf(states')) && IsStateIndex(states', index')
    ensures Extends(cs, states, stateQ, states', stateQ')
    ensures forall i :: 0 <= i < |states| && i != stateI ==> states'[i] == states[i]
    ensures states'[stateI].configs == states[stateI].configs
    ensures states'[stateI].actions == states[stateI].actions + [ActionInProgress(Shift(at), {symbol})]
    ensures at < |states'|
    ensures IsGoto(g, cs, Elements(states[stateI].configs), symbol, Elements(ItemsOf(states')[at]))
  {
    var configs := states[stateI].configs;
    assert AreIndices(cs, ItemsOf(states)[stateI]);
    var kernel := NextKernel(g, cs, configs, symbol);
    var next := Close(kernel, g, cs, lhs2sc);
    at, states', index', stateQ' := FindOrAdd(g, cs, start, stateI, symbol, next, states, index, stateQ);
    ghost var items := ItemsOf(states');
    var shift := ActionInProgress(Shift(at), {symbol});
    states' := states'[stateI := states'[stateI].(actions := states'[stateI].actions + [shift])];
    assert ItemsOf(states') == items;
  }

  /** Gives state `stateI` its transitions; target states not seen before are added and queued. */
  method AddTransitions(g: Grammar, cs: Configs, ghost start: nat, lhs2sc: ParserGraph, stateI: nat,
                        states: seq<State>, index: map<seq<int>, nat>, stateQ: seq<nat>)
    returns (states': seq<State>, index': map<seq<int>, nat>, stateQ': seq<nat>)
    requires g.Valid() && AreConfigs(g, cs) && IsStartGraph(g, cs, lhs2sc)
    requires IsCollection(g, cs, start, ItemsOf(states)) && IsStateIndex(states, index)
    requires stateI < |states| && states[stateI].actions == []
    ensures IsCollection(g, cs, start, ItemsOf(states')) && IsStateIndex(states', index')
    ensures Extends(cs, states, stateQ, states', stateQ')
    ensures forall i :: 0 <= i < |states| && i != stateI ==> states'[i] == states[i]
    ensures ShiftsAreComplete(g, cs, ItemsOf(states'), Elements(states[stateI].configs), states'[stateI].actions)
  {
    states', index', stateQ' := states, index, stateQ;
    ghost var from := Elements(states[stateI].configs);
    assert AreIndices(cs, ItemsOf(states)[stateI]);
    var symbols := GetTransitionSymbols(g, cs, states[stateI].configs);
    for k := 0 to |symbols|
      invariant IsCollection(g, cs, start, ItemsOf(states')) && IsStateIndex(states', index')
      invariant Extends(cs, states, stateQ, states', stateQ')
      invariant forall i :: 0 <= i < |states| && i != stateI ==> states'[i] == states[i]
      invariant states'[stateI].configs == states[stateI].configs
      invariant AreShifts(g, cs, ItemsOf(states'), from, symbols[..k], states'[stateI].actions)
    {
      assert symbols[k] in Elements(symbols);
      ghost var states0, stateQ0 := states', stateQ';
      var at;
      at, states', index', stateQ' :=
        AddTransition(g, cs, start, lhs2sc, stateI, symbols[k], states', index', stateQ');
      ExtendsIsTransitive(cs, states, stateQ, states0, stateQ0, states', stateQ');
      LongerItemsKeepShifts(
        g, cs, ItemsOf(states0), ItemsOf(states'), from, symbols[..k], states0[stateI].actions);
      AppendShift(g, cs, ItemsOf(states'), from, symbols, k, states0[stateI].actions, at);
    }
    assert symbols[..|symbols|] == symbols;
  }

  lemma ExtendsIsTransitive(cs: Configs, states0: seq<State>, stateQ0: seq<nat>, states1: seq<State>,
                            stateQ1: seq<nat>, states2: seq<State>, stateQ2: seq<nat>)
    requires Extends(cs, states0, stateQ0, states1, stateQ1)
    requires Extends(cs, states1, stateQ1, states2, stateQ2)
    requires forall i :: |states0| <= i < |states1| ==> states2[i] == states1[i]
    ensures Extends(cs, states0, stateQ0, states2, stateQ2)
  {
  }

  lemma AppendShift(g: Grammar, cs: Configs, items: seq<seq<int>>, from: set<int>,
                    symbols: seq<int>, k: nat, shifts: seq<ActionInProgress>, at: nat)
    requires k < |symbols| && AreShifts(g, cs, items, from, symbols[..k], shifts)
    requires at < |items| && IsGoto(g, cs, from, symbols[k], Elements(items[at]))
    ensures AreShifts(g, cs, items, from, symbols[..k + 1], shifts + [ActionInProgress(Shift(at), {symbols[k]})])
  {
  }

  lemma LongerItemsKeepShifts(g: Grammar, cs: Configs, items: seq<seq<int>>, longer: seq<seq<int>>,
                              from: set<int>, symbols: seq<int>, shifts: seq<ActionInProgress>)
    requires items <= longer
    ensures AreShifts(g, cs, items, from, symbols, shifts) ==> AreShifts(g, cs, longer, from, symbols, shifts)
    ensures ShiftsAreComplete(g, cs, items, from, shifts) ==> ShiftsAreComplete(g, cs, longer, from, shifts)
  {
    if ShiftsAreComplete(g, cs, items, from, shifts) {
      var syms :| StrictlyIncreasing(syms) && Elements(syms) == TransitionSymbols(g, cs, from)
        && AreShifts(g, cs, items, from, syms, shifts);
      assert AreShifts(g, cs, longer, from, syms, shifts);
    }
  }

  // ----- reductions -----

  predicate IsComplete(g: Grammar, cs: Configs, c: int) {
    0 <= c < |cs| && cs[c].production < |g.productions| && cs[c].dot == |Rhs(g, cs, c)|
  }

  /** One reduction for each complete config, in order, with no context yet. */
  ghost function Reductions(g: Grammar, cs: Configs, configs: seq<int>): seq<ActionInProgress> {
    if configs == [] then []
    else
      var c := configs[|configs| - 1];
      Reductions(g, cs, configs[..|configs| - 1])
      + if IsComplete(g, cs, c) then [ActionInProgress(Reduce(cs[c].production), {})] else []
  }

  function Terminals(g: Grammar): set<int> {
    set t: int | 0 <= t < g.nterminals && g.IsTerminal(t)
  }

  /** A reduction is in context before every terminal, the accepting one only before the end. */
  function InLr0Context(g: Grammar, a: ActionInProgress): ActionInProgress {
    if a.action.Shift? then a
    else if a.action.production == g.AcceptProduction() then a.(context := {g.EndTerminal()})
    else a.(context := Terminals(g))
  }

  ghost function AllInLr0Context(g: Grammar, actions: seq<ActionInProgress>): seq<ActionInProgress> {
    seq(|actions|, i requires 0 <= i < |actions| => InLr0Context(g, actions[i]))
  }

  /** The actions of a state: its transitions, then its reductions in their LR(0) contexts. */
  ghost predicate HasLr0Actions(g: Grammar, cs: Configs, items: seq<seq<int>>, state: State) {
    exists shifts ::
      && ShiftsAreComplete(g, cs, items, Elements(state.configs), shifts)
      && state.actions == AllInLr0Context(g, shifts + Reductions(g, cs, state.configs))
  }

  method AddReductionActions(g: Grammar, cs: Configs, states: seq<State>) returns (states': seq<State>)
    requires AreConfigs(g, cs) && forall i :: 0 <= i < |states| ==> AreIndices(cs, states[i].configs)
    ensures |states'| == |states|
    ensures forall i :: 0 <= i < |states| ==>
      states'[i] == State(states[i].configs, states[i].actions + Reductions(g, cs, states[i].configs))
  {
    states' := states;
    for i := 0 to |states|
      invariant |states'| == |states| && states'[i..] == states[i..]
      invariant forall k :: 0 <= k < i ==>
        states'[k] == State(states[k].configs, states[k].actions + Reductions(g, cs, states[k].configs))
    {
      var configs, actions := states[i].configs, states[i].actions;
      for k := 0 to |configs|
        invariant actions == states[i].actions + Reductions(g, cs, configs[..k])
      {
        assert configs[..k + 1][..k] == configs[..k];
        var c := configs[k];
        if cs[c].dot != |Rhs(g, cs, c)| {
          continue;
        }
        actions := actions + [ActionInProgress(Reduce(cs[c].production), {})];
      }
      assert configs[..|configs|] == configs;
      states' := states'[i := State(configs, actions)];
    }
  }

  method SetLr0Contexts(g: Grammar, states: seq<State>) returns (states': seq<State>)
    ensures |states'| == |states|
    ensures forall i :: 0 <= i < |states| ==>
      states'[i] == State(states[i].configs, AllInLr0Context(g, states[i].actions))
  {
    states' := states;
    for i := 0 to |states|
      invariant |states'| == |states| && states'[i..] == states[i..]
      invariant forall k :: 0 <= k < i ==>
        states'[k] == State(states[k].configs, AllInLr0Context(g, states[k].actions))
    {
      var actions := states[i].actions;
      for k := 0 to |actions|
        invariant |actions| == |states[i].actions|
        invariant forall j :: 0 <= j < |actions| ==>
          actions[j] == if j < k then InLr0Context(g, states[i].actions[j]) else states[i].actions[j]
      {
        actions := actions[k := InLr0Context(g, actions[k])];
      }
      assert actions == AllInLr0Context(g, states[i].actions);
      states' := states'[i := State(states[i].configs, actions)];
    }
  }

  // ----- the machine -----

  ghost predicate IsLr0Machine(g: Grammar, cs: Configs, start: nat, states: seq<State>) {
    && IsCollection(g, cs, start, ItemsOf(states))
    && Starts(g, cs, start, g.AcceptNonterminal())
    && forall i :: 0 <= i < |states| ==> HasLr0Actions(g, cs, ItemsOf(states), states[i])
  }

  /** The first `done` states have all their transitions, the others wait in the queue in order. */
  ghost predicate IsExplored(g: Grammar, cs: Configs, states: seq<State>, done: nat, stateQ: seq<nat>) {
    && |stateQ| + done == |states|
    && (forall k :: 0 <= k < |stateQ| ==> stateQ[k] == done + k)
    && (forall i :: done <= i < |states| ==> states[i].actions == [])
    && (forall i :: 0 <= i < done ==>
          ShiftsAreComplete(g, cs, ItemsOf(states), Elements(states[i].configs), states[i].actions))
  }

  lemma OneMoreExplored(g: Grammar, cs: Configs, states: seq<State>, done: nat, stateQ: seq<nat>,
                        states': seq<State>, stateQ': seq<nat>)
    requires IsExplored(g, cs, states, done, stateQ) && stateQ != []
    requires Extends(cs, states, stateQ[1..], states', stateQ')
    requires forall i :: 0 <= i < |states| && i != done ==> states'[i] == states[i]
    requires ShiftsAreComplete(
      g, cs, ItemsOf(states'), Elements(states[done].configs), states'[done].actions)
    ensures IsExplored(g, cs, states', done + 1, stateQ')
  {
    forall i | 0 <= i < done
      ensures ShiftsAreComplete(g, cs, ItemsOf(states'), Elements(states'[i].configs), states'[i].actions)
    {
      LongerItemsKeepShifts(g, cs, ItemsOf(states), ItemsOf(states'), Elements(states[i].configs), [],
                            states[i].actions);
    }
    assert ItemsOf(states')[done] == ItemsOf(states)[done];
  }

  method GetStartConfig(g: Grammar, cs: Configs, lhs2sc: ParserGraph) returns (start: nat)
    requires g.HasAccept() && AreConfigs(g, cs) && IsStartGraph(g, cs, lhs2sc)
    ensures Starts(g, cs, start, g.AcceptNonterminal())
  {
    var accepts := lhs2sc[g.AcceptNonterminal()];
    assert accepts != [] by {
      assert Config(g.AcceptProduction(), 0) in cs;
      var c: nat :| c < |cs| && cs[c] == Config(g.AcceptProduction(), 0);
      assert HasEdge(lhs2sc, g.AcceptNonterminal(), c);
    }
    start := accepts[0];
    assert HasEdge(lhs2sc, g.AcceptNonterminal(), start);
  }

  /** Explores the machine. Each turn takes one state off the queue; there are only finitely many
      config sets to queue. */
  method Explore(g: Grammar, cs: Configs, lhs2sc: ParserGraph, start: nat) returns (states: seq<State>)
    requires g.Valid() && AreConfigs(g, cs) && IsStartGraph(g, cs, lhs2sc) && start < |cs|
    ensures IsCollection(g, cs, start, ItemsOf(states))
    ensures forall i :: 0 <= i < |states| ==>
      ShiftsAreComplete(g, cs, ItemsOf(states), Elements(states[i].configs), states[i].actions)
  {
    var startConfigs := Close([start], g, cs, lhs2sc);
    assert Elements([start]) == {start};
    states := [State(startConfigs, [])];
    var index := map[startConfigs := 0];
    var stateQ: seq<nat> := [0];
    ghost var done := 0;
    while stateQ != []
      invariant IsCollection(g, cs, start, ItemsOf(states)) && IsStateIndex(states, index)
      invariant IsExplored(g, cs, states, done, stateQ)
      decreases Unseen(cs, ItemsOf(states)), |stateQ|
    {
      var stateI, rest := stateQ[0], stateQ[1..];
      ghost var states0, stateQ0 := states, stateQ;
      states, index, stateQ := AddTransitions(g, cs, start, lhs2sc, stateI, states, index, rest);
      OneMoreExplored(g, cs, states0, done, stateQ0, states, stateQ);
      done := done + 1;
    }
  }

  method BuildLr0Parser(g: Grammar, cs: Configs, lhs2sc: ParserGraph) returns (states: seq<State>, ghost start: nat)
    requires g.HasAccept() && AreConfigs(g, cs) && IsStartGraph(g, cs, lhs2sc)
    ensures IsLr0Machine(g, cs, start, states)
  {
    var first := GetStartConfig(g, cs, lhs2sc);
    start := first;
    states := Explore(g, cs, lhs2sc, first);
    ghost var explored := states;
    assert forall i :: 0 <= i < |states| ==> AreIndices(cs, ItemsOf(states)[i]);
    states := AddReductionActions(g, cs, states);
    states := SetLr0Contexts(g, states);
    assert ItemsOf(states) == ItemsOf(explored);
    forall i | 0 <= i < |states|
      ensures HasLr0Actions(g, cs, ItemsOf(states), states[i])
    {
      var shifts := explored[i].actions;
      assert states[i].actions == AllInLr0Context(g, shifts + Reductions(g, cs, states[i].configs));
    }
  }

  // ----- canonicity -----

  function Front(read: seq<int>): seq<int>
    requires read != []
  {
    read[..|read| - 1]
  }

  function Last(read: seq<int>): int
    requires read != []
  {
    read[|read| - 1]
  }

  /** `items` are the configs the parser may be in after the symbols `read`. */
  ghost predicate IsItemsAfter(g: Grammar, cs: Configs, start: nat, read: seq<int>, items: set<int>)
    decreases |read|
  {
    if read == [] then IsClosure(g, cs, {start}, items)
    else exists before ::
      IsItemsAfter(g, cs, start, Front(read), before) && IsGoto(g, cs, before, Last(read), items)
  }

  predicate HasShift(state: State, x: int, to: nat) {
    ActionInProgress(Shift(to), {x}) in state.actions
  }

  /** Following transitions over the symbols `read` leads from the start state to state `i`. */
  ghost predicate RunsTo(states: seq<State>, read: seq<int>, i: nat)
    decreases |read|
  {
    && i < |states|
    && if read == [] then i == 0
       else exists j: nat :: RunsTo(states, Front(read), j) && HasShift(states[j], Last(read), i)
  }

  lemma ClosureIsUnique(g: Grammar, cs: Configs, s: set<int>, a: set<int>, b: set<int>)
    requires IsClosure(g, cs, s, a) && IsClosure(g, cs, s, b)
    ensures a == b
  {
  }

  lemma {:induction false} ReductionsAreReductions(g: Grammar, cs: Configs, configs: seq<int>)
    ensures forall a :: a in Reductions(g, cs, configs) ==> a.action.Reduce?
  {
    if configs != [] {
      ReductionsAreReductions(g, cs, configs[..|configs| - 1]);
    }
  }

  lemma ShiftsOf(g: Grammar, cs: Configs, start: nat, states: seq<State>, j: nat)
    returns (symbols: seq<int>, shifts: seq<ActionInProgress>)
    requires IsLr0Machine(g, cs, start, states) && j < |states|
    ensures StrictlyIncreasing(symbols)
    ensures Elements(symbols) == TransitionSymbols(g, cs, Elements(states[j].configs))
    ensures AreShifts(g, cs, ItemsOf(states), Elements(states[j].configs), symbols, shifts)
    ensures shifts <= states[j].actions
    ensures forall k :: |shifts| <= k < |states[j].actions| ==> states[j].actions[k].action.Reduce?
  {
    var items := ItemsOf(states);
    var from := Elements(states[j].configs);
    assert HasLr0Actions(g, cs, items, states[j]);
    var reductions := Reductions(g, cs, states[j].configs);
    shifts :| ShiftsAreComplete(g, cs, items, from, shifts)
      && states[j].actions == AllInLr0Context(g, shifts + reductions);
    symbols :| StrictlyIncreasing(symbols) && Elements(symbols) == TransitionSymbols(g, cs, from)
      && AreShifts(g, cs, items, from, symbols, shifts);
    ReductionsAreReductions(g, cs, states[j].configs);
    assert forall k :: 0 <= k < |reductions| ==> reductions[k] in reductions;
  }

  /** A state shifts to exactly its goto sets. */
  lemma ShiftsAreGotos(
      g: Grammar, cs: Configs, start: nat, states: seq<State>, j: nat, x: int, to: nat)
    requires IsLr0Machine(g, cs, start, states) && j < |states|
    ensures HasShift(states[j], x, to) <==>
      to < |states| && IsGoto(g, cs, Elements(states[j].configs), x, Elements(states[to].configs))
  {
    hide HasLr0Actions;
    var from := Elements(states[j].configs);
    var items := ItemsOf(states);
    var symbols, shifts := ShiftsOf(g, cs, start, states, j);
    if HasShift(states[j], x, to) {
      var k :| 0 <= k < |states[j].actions| && states[j].actions[k] == ActionInProgress(Shift(to), {x});
      assert shifts[k].context == {symbols[k]};
      assert symbols[k] in {x};
    }
    if to < |states| && IsGoto(g, cs, from, x, Elements(states[to].configs)) {
      assert x in Elements(symbols);
      var k :| 0 <= k < |symbols| && symbols[k] == x;
      var i := shifts[k].action.nextState;
      ClosureIsUnique(g, cs, KernelAfter(g, cs, from, x), Elements(items[i]), Elements(items[to]));
      IncreasingSeqsAreEqual(items[i], items[to]);
      assert i == to;
      assert states[j].actions[k] == ActionInProgress(Shift(to), {x});
    }
  }

  lemma GotoHasAShift(
      g: Grammar, cs: Configs, start: nat, states: seq<State>, j: nat, x: int, next: set<int>)
    returns (to: nat)
    requires IsLr0Machine(g, cs, start, states) && j < |states|
    requires IsGoto(g, cs, Elements(states[j].configs), x, next)
    ensures to < |states| && Elements(states[to].configs) == next && HasShift(states[j], x, to)
  {
    var from := Elements(states[j].configs);
    var items := ItemsOf(states);
    var symbols, shifts := ShiftsOf(g, cs, start, states, j);
    assert x in Elements(symbols);
    var k :| 0 <= k < |symbols| && symbols[k] == x;
    to := shifts[k].action.nextState;
    ClosureIsUnique(g, cs, KernelAfter(g, cs, from, x), next, Elements(items[to]));
    assert states[j].actions[k] == ActionInProgress(Shift(to), {x});
  }

  /** A state has one transition for a symbol, never two. */
  lemma ShiftsAreDeterministic(
      g: Grammar, cs: Configs, start: nat, states: seq<State>, j: nat, k: nat, l: nat)
    requires IsLr0Machine(g, cs, start, states) && j < |states| && k < l < |states[j].actions|
    requires states[j].actions[k].action.Shift? && states[j].actions[l].action.Shift?
    ensures states[j].actions[k].context != states[j].actions[l].context
  {
    var symbols, shifts := ShiftsOf(g, cs, start, states, j);
    assert symbols[k] < symbols[l];
    assert shifts[k].context == {symbols[k]} && shifts[l].context == {symbols[l]};
    assert symbols[k] in {symbols[k]} && symbols[k] !in {symbols[l]};
  }

  /** The machine is the canonical collection: the config sets that some string of symbols leads to
      are those of the states, and running the transitions over the string finds the right one. */
  lemma {:induction false} RunsFollowItems(
      g: Grammar, cs: Configs, start: nat, states: seq<State>, read: seq<int>, items: set<int>)
    requires IsLr0Machine(g, cs, start, states)
    ensures IsItemsAfter(g, cs, start, read, items) <==>
      exists i: nat :: RunsTo(states, read, i) && Elements(states[i].configs) == items
    decreases |read|
  {
    hide HasLr0Actions, TransitionSymbols, Grammar.AcceptNonterminal;
    assert ItemsOf(states)[0] == states[0].configs;
    if read == [] {
      assert RunsTo(states, read, 0);
      if IsItemsAfter(g, cs, start, read, items) {
        ClosureIsUnique(g, cs, {start}, items, Elements(states[0].configs));
      }
    } else {
      if IsItemsAfter(g, cs, start, read, items) {
        var before :| IsItemsAfter(g, cs, start, Front(read), before) && IsGoto(g, cs, before, Last(read), items);
        RunsFollowItems(g, cs, start, states, Front(read), before);
        var j: nat :| RunsTo(states, Front(read), j) && Elements(states[j].configs) == before;
        var i := GotoHasAShift(g, cs, start, states, j, Last(read), items);
        assert RunsTo(states, read, i);
      }
      if i: nat :| RunsTo(states, read, i) && Elements(states[i].configs) == items {
        var j: nat :| RunsTo(states, Front(read), j) && HasShift(states[j], Last(read), i);
        RunsFollowItems(g, cs, start, states, Front(read), Elements(states[j].configs));
        ShiftsAreGotos(g, cs, start, states, j, Last(read), i);
      }
    }
  }

  /** Every state is reached by some string. */
  lemma StatesAreReachable(g: Grammar, cs: Configs, start: nat, states: seq<State>, i: nat)
    returns (read: seq<int>)
    requires IsLr0Machine(g, cs, start, states) && i < |states|
    ensures RunsTo(states, read, i)
  {
    if i == 0 {
      read := [];
    } else {
      var items := ItemsOf(states);
      assert HasParent(g, cs, items, i);
      var j: nat, x :| j < i && IsGoto(g, cs, Elements(items[j]), x, Elements(items[i]));
      var before := StatesAreReachable(g, cs, start, states, j);
      ShiftsAreGotos(g, cs, start, states, j, x, i);
      read := before + [x];
      assert Front(read) == before && Last(read) == x;
    }
  }
}
