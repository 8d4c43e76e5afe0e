/** A grammar that is LALR(1) and that the construction refuses: the machine, written out. */
module RefusedGrammar {
  import opened Containers
  import opened Grammars
  import opened FirstSets
  import opened Lr0
  import opened Originators
  import opened Lanes
  import opened LaneTracing
  import opened Lookaheads
  import opened Adequacy
  import opened Conflicts
  import opened Pushers
  import opened Snares
  import opened Lalr
  import opened Sheets

  const A: nat := 0
  const T: nat := 1
  const X: nat := 2
  const END: nat := 3

  /** S ::= A t | a A x | a x, A ::= a; S is 4, A is 5, and 6 accepts. */
  function TheGrammar(): Grammar {
    Grammar(7, 4, [Production(4, [5, T]), Production(4, [A, 5, X]), Production(4, [A, X]), Production(5, [A]),
                   Production(6, [4])])
  }

  function TheConfigs(): Configs {
    [Config(0, 0), Config(0, 1), Config(0, 2), Config(1, 0), Config(1, 1), Config(1, 2), Config(1, 3),
     Config(2, 0), Config(2, 1), Config(2, 2), Config(3, 0), Config(3, 1), Config(4, 0), Config(4, 1)]
  }

  function TheItems(): seq<seq<int>> {
    [[0, 3, 7, 10, 12], [4, 8, 10, 11], [13], [1], [11], [9], [5], [2], [6]]
  }

  function OnShift(symbol: int, to: nat): ActionInProgress {
    ActionInProgress(Shift(to), {symbol})
  }

  function OnReduce(production: nat): ActionInProgress {
    ActionInProgress(Reduce(production), Terminals(TheGrammar()))
  }

  function TheActions(): seq<seq<ActionInProgress>> {
    [[OnShift(A, 1), OnShift(4, 2), OnShift(5, 3)],
     [OnShift(A, 4), OnShift(X, 5), OnShift(5, 6), OnReduce(3)],
     [ActionInProgress(Reduce(4), {END})], [OnShift(T, 7)], [OnReduce(3)], [OnReduce(2)], [OnShift(X, 8)],
     [OnReduce(0)], [OnReduce(1)]]
  }

  function TheStates(): (states: seq<State>)
    ensures |states| == 9
    ensures forall s :: 0 <= s < 9 ==> states[s] == State(TheItems()[s], TheActions()[s])
  {
    seq(9, s requires 0 <= s < 9 => State(TheItems()[s], TheActions()[s]))
  }

  ghost function TheMachine(): ParserInProgress {
    MachineOf(TheGrammar(), TheConfigs(), TheStates())
  }

  // ----- it is the machine of the grammar -----

  lemma TheGrammarAccepts()
    ensures TheGrammar().HasAccept()
  {
  }

  lemma ConfigsOf(g: Grammar, cs: Configs, at: seq<nat>, p: int)
    requires g == TheGrammar() && cs == TheConfigs() && at == [0, 3, 7, 10, 12, 14]
    ensures HasConfigsAt(g, cs, at, p)
  {
    if p == 0 {
      assert |g.productions[0].rhs| == 2;
    } else if p == 1 {
      assert |g.productions[1].rhs| == 3;
    } else if p == 2 {
      assert |g.productions[2].rhs| == 2;
    } else if p == 3 {
      assert |g.productions[3].rhs| == 1;
    } else if p == 4 {
      assert |g.productions[4].rhs| == 1;
    }
  }

  lemma ConfigsAreAll(g: Grammar, cs: Configs)
    requires g == TheGrammar() && cs == TheConfigs()
    ensures AreConfigs(g, cs)
  {
    hide AreConfigs, MarksExactly;
    var at: seq<nat> := [0, 3, 7, 10, 12, 14];
    forall p
      ensures HasConfigsAt(g, cs, at, p)
    {
      ConfigsOf(g, cs, at, p);
    }
    ConfigsAre(g, cs, at);
  }

  function TheSheet(): Sheet {
    Sheet([5, 1, -1, 0, 5, 2, -1, 0, 2, -1, 0, -1, 4, -1],
          [[10], [], [], [], [10], [], [], [], [], [], [], [], [0, 3, 7], []])
  }

  lemma NextIs(g: Grammar, cs: Configs, c: int)
    requires g == TheGrammar() && cs == TheConfigs() && 0 <= c < 14
    ensures TheSheet().next[c] == SymbolAfterDot(g, cs, c) < 7
  {
  }

  lemma StartsAre(g: Grammar, cs: Configs, x: int, d: int)
    requires g == TheGrammar() && cs == TheConfigs() && 0 <= x < 7
    ensures d in [[], [], [], [], [0, 3, 7], [10], [12]][x] <==> Starts(g, cs, d, x)
  {
  }

  lemma TheSheetIs(g: Grammar, cs: Configs, sh: Sheet)
    requires g == TheGrammar() && cs == TheConfigs() && sh == TheSheet()
    ensures IsSheet(g, cs, sh)
  {
    hide IsSheet, SymbolAfterDot, Starts;
    var starts: seq<seq<int>> := [[], [], [], [], [0, 3, 7], [10], [12]];
    forall c | 0 <= c < 14
      ensures sh.next[c] == SymbolAfterDot(g, cs, c) < 7
    {
      NextIs(g, cs, c);
    }
    forall x, d | 0 <= x < 7
      ensures d in starts[x] <==> Starts(g, cs, d, x)
    {
      StartsAre(g, cs, x, d);
    }
    SheetIs(g, cs, sh, starts);
  }

  function TheSymbols(): seq<seq<int>> {
    [[0, 4, 5], [0, 2, 5], [], [1], [], [], [2], [], []]
  }

  function TheTargets(): seq<seq<nat>> {
    [[1, 2, 3], [4, 5, 6], [], [7], [], [], [8], [], []]
  }

  lemma GotosOfStart(g: Grammar, cs: Configs, sh: Sheet, k: nat)
    requires IsSheet(g, cs, sh) && cs == TheConfigs() && sh == TheSheet() && 1 <= k <= 2
    ensures IsGoto(g, cs, Elements([0, 3, 7, 10, 12]), k + 3, Elements([if k == 1 then 13 else 1]))
  {
    hide IsSheet, IsGoto;
    if k == 1 {
      GotoOne(g, cs, sh, [0, 3, 7, 10, 12], 4, 13);
    } else {
      GotoOne(g, cs, sh, [0, 3, 7, 10, 12], 5, 1);
    }
  }

  lemma GotosOfOne(g: Grammar, cs: Configs, sh: Sheet, k: nat)
    requires IsSheet(g, cs, sh) && cs == TheConfigs() && sh == TheSheet() && k <= 2
    ensures IsGoto(g, cs, Elements([4, 8, 10, 11]), [0, 2, 5][k], Elements([[11, 9, 5][k]]))
  {
    hide IsSheet, IsGoto;
    if k == 0 {
      GotoOne(g, cs, sh, [4, 8, 10, 11], 0, 11);
    } else if k == 1 {
      GotoOne(g, cs, sh, [4, 8, 10, 11], 2, 9);
    } else {
      GotoOne(g, cs, sh, [4, 8, 10, 11], 5, 5);
    }
  }

  lemma TheGotos(g: Grammar, cs: Configs, sh: Sheet, items: seq<seq<int>>, s: nat, k: nat)
    requires IsSheet(g, cs, sh) && cs == TheConfigs() && sh == TheSheet() && items == TheItems()
    requires s < 9 && k < |TheSymbols()[s]|
    ensures k < |TheTargets()[s]| && TheTargets()[s][k] < 9
    ensures IsGoto(g, cs, Elements(items[s]), TheSymbols()[s][k], Elements(items[TheTargets()[s][k]]))
  {
    hide IsSheet, IsGoto;
    if s == 0 {
      if k == 0 {
        FirstGoto(g, cs, sh);
      } else {
        GotosOfStart(g, cs, sh, k);
      }
    } else if s == 1 {
      GotosOfOne(g, cs, sh, k);
    } else if s == 3 {
      GotoOne(g, cs, sh, [1], 1, 2);
    } else {
      GotoOne(g, cs, sh, [5], 2, 6);
    }
  }

  lemma FirstGoto(g: Grammar, cs: Configs, sh: Sheet)
    requires IsSheet(g, cs, sh) && cs == TheConfigs() && sh == TheSheet()
    ensures IsGoto(g, cs, Elements([0, 3, 7, 10, 12]), 0, Elements([4, 8, 10, 11]))
  {
    hide IsSheet, IsGoto;
    var order := [4, 8, 11, 10];
    assert order[3] in sh.spawn[order[0]];
    assert IsSpawned(sh, order, 3);
    GotoIs(g, cs, sh, [0, 3, 7, 10, 12], 0, {4, 8, 11}, order, [4, 8, 10, 11]);
  }

  lemma StartClosure(g: Grammar, cs: Configs, sh: Sheet)
    requires IsSheet(g, cs, sh) && cs == TheConfigs() && sh == TheSheet()
    ensures IsClosure(g, cs, {12}, Elements([0, 3, 7, 10, 12]))
  {
    hide IsSheet, IsClosure;
    var order := [12, 0, 3, 7, 10];
    assert order[1] in sh.spawn[order[0]] && order[2] in sh.spawn[order[0]] && order[3] in sh.spawn[order[0]];
    assert order[4] in sh.spawn[order[1]];
    assert IsSpawned(sh, order, 1) && IsSpawned(sh, order, 2) && IsSpawned(sh, order, 3) && IsSpawned(sh, order, 4);
    ClosureIs(g, cs, sh, {12}, order, [0, 3, 7, 10, 12]);
  }

  /** State `s` is reached from state `ParentOf(s)`, on its symbol `KeyOf(s)`. */
  function ParentOf(s: nat): nat {
    if s <= 3 then 0 else if s <= 6 then 1 else if s == 7 then 3 else 6
  }

  function KeyOf(s: nat): nat {
    if 1 <= s <= 3 then s - 1 else if 4 <= s <= 6 then s - 4 else 0
  }

  lemma HasTheParent(g: Grammar, cs: Configs, sh: Sheet, items: seq<seq<int>>, i: nat)
    requires IsSheet(g, cs, sh) && cs == TheConfigs() && sh == TheSheet() && items == TheItems() && 0 < i < 9
    ensures HasParent(g, cs, items, i)
  {
    hide IsSheet, IsGoto;
    var s, k := ParentOf(i), KeyOf(i);
    assert k < |TheSymbols()[s]| && TheTargets()[s][k] == i;
    TheGotos(g, cs, sh, items, s, k);
  }

  lemma ItemsAreSorted(items: seq<seq<int>>, i: nat)
    requires items == TheItems() && i < 9
    ensures StrictlyIncreasing(items[i]) && AreIndices(TheConfigs(), items[i])
  {
    if i == 0 {
      assert items[0] == [0, 3, 7, 10, 12];
    } else if i == 1 {
      assert items[1] == [4, 8, 10, 11];
    } else {
      assert items[i] == [items[i][0]];
    }
  }

  lemma IsTheCollection(g: Grammar, cs: Configs, sh: Sheet, items: seq<seq<int>>)
    requires IsSheet(g, cs, sh) && cs == TheConfigs() && sh == TheSheet() && items == TheItems()
    ensures IsCollection(g, cs, 12, items)
  {
    hide IsSheet, IsClosure, HasParent;
    StartClosure(g, cs, sh);
    forall i: nat | i < 9
      ensures StrictlyIncreasing(items[i]) && AreIndices(cs, items[i])
    {
      ItemsAreSorted(items, i);
    }
    forall i: nat | 0 < i < 9
      ensures HasParent(g, cs, items, i)
    {
      HasTheParent(g, cs, sh, items, i);
    }
    var heads := [0, 4, 13, 1, 11, 9, 5, 2, 6];
    forall i, j | 0 <= i < j < 9
      ensures items[i] != items[j]
    {
      assert items[i][0] == heads[i] && items[j][0] == heads[j];
    }
  }

  lemma {:induction false} TheReductions(g: Grammar, cs: Configs, sh: Sheet, items: seq<seq<int>>, s: nat)
    requires IsSheet(g, cs, sh) && g == TheGrammar() && cs == TheConfigs() && sh == TheSheet() && items == TheItems()
    requires s < 9
    ensures s in {0, 3, 6} ==> Reductions(g, cs, items[s]) == []
    ensures s !in {0, 3, 6} ==>
      Reductions(g, cs, items[s]) == [ActionInProgress(Reduce([0, 3, 4, 0, 3, 2, 0, 0, 1][s]), {})]
  {
    hide IsSheet, Reductions;
    if s in {0, 3, 6} {
      NoReductions(g, cs, sh, items[s]);
    } else if s == 1 {
      OneReduction(g, cs, sh, [4, 8, 10], 11);
      assert items[1] == [4, 8, 10] + [11];
    } else {
      var c := items[s][0];
      OneReduction(g, cs, sh, [], c);
      assert items[s] == [] + [c];
    }
  }

  lemma SymbolsAreAll(s: nat)
    requires s < 9
    ensures |TheSymbols()[s]| == |TheTargets()[s]| && StrictlyIncreasing(TheSymbols()[s])
    ensures forall c :: c in TheItems()[s] ==>
      0 <= c < 14 && (0 <= TheSheet().next[c] ==> TheSheet().next[c] in TheSymbols()[s])
  {
  }

  lemma ActionsOf(g: Grammar, cs: Configs, sh: Sheet, items: seq<seq<int>>, s: nat)
    requires IsSheet(g, cs, sh) && g == TheGrammar() && cs == TheConfigs() && sh == TheSheet() && items == TheItems()
    requires s < 9
    ensures HasLr0Actions(g, cs, items, State(items[s], TheActions()[s]))
  {
    hide IsSheet, IsGoto, Reductions, HasLr0Actions, AllInLr0Context, Grammar.IsTerminal, TheSheet;
    var symbols, targets := TheSymbols()[s], TheTargets()[s];
    forall k: nat | k < |symbols|
      ensures targets[k] < |items| && IsGoto(g, cs, Elements(items[s]), symbols[k], Elements(items[targets[k]]))
    {
      TheGotos(g, cs, sh, items, s, k);
    }
    ItemsAreSorted(items, s);
    TheReductions(g, cs, sh, items, s);
    SymbolsAreAll(s);
    ActionsMatch(g, s, ShiftsTo(symbols, targets), Reductions(g, cs, items[s]));
    ActionsAre(g, cs, sh, items, s, State(items[s], TheActions()[s]), symbols, targets);
  }

  lemma ActionsMatch(
      g: Grammar, s: nat, shifts: seq<ActionInProgress>, reductions: seq<ActionInProgress>)
    requires g == TheGrammar() && s < 9 && shifts == ShiftsTo(TheSymbols()[s], TheTargets()[s])
    requires s in {0, 3, 6} ==> reductions == []
    requires s !in {0, 3, 6} ==> reductions == [ActionInProgress(Reduce([0, 3, 4, 0, 3, 2, 0, 0, 1][s]), {})]
    ensures TheActions()[s] == AllInLr0Context(g, shifts + reductions)
  {
    hide Terminals;
    assert |TheActions()[s]| == |shifts + reductions|;
  }

  lemma IsTheMachine(pip: ParserInProgress)
    requires pip == TheMachine()
    ensures pip.Valid() && IsLr0Machine(pip.g, pip.cs, 12, pip.states)
  {
    hide AreConfigs, AddressesMatch, IsCollection, HasLr0Actions, Grammar.HasAccept, IsSheet;
    var g, cs, sh := pip.g, pip.cs, TheSheet();
    TheGrammarAccepts();
    ConfigsAreAll(g, cs);
    AddressesAre(pip.states);
    TheSheetIs(g, cs, sh);
    var items := TheItems();
    assert ItemsOf(pip.states) == items;
    IsTheCollection(g, cs, sh, items);
    forall s: nat | s < 9
      ensures StrictlyIncreasing(pip.states[s].configs) && AreIndices(cs, pip.states[s].configs)
      ensures HasLr0Actions(g, cs, items, pip.states[s])
    {
      ItemsAreSorted(items, s);
      ActionsOf(g, cs, sh, items, s);
    }
  }

  // ----- the grammar is LALR(1) -----

  function TheTotals(): seq<nat> {
    [0, 5, 9, 10, 11, 12, 13, 14, 15, 16]
  }

  lemma TotalsAreRight(pip: ParserInProgress)
    requires pip == TheMachine()
    ensures AreTotals(pip.states, TheTotals())
  {
    forall s
      ensures IsTotal(pip.states, TheTotals(), s)
    {
      assert 0 <= s < 9 ==> pip.states[s].configs == TheItems()[s];
    }
  }

  /** The address of A ::= a . after the first `a`, that of A ::= . a in the start state, of S ::= . A t there,
      and of S ::= a . A x. */
  lemma SomeAddresses(pip: ParserInProgress)
    requires pip == TheMachine()
    ensures pip.IsAddress(8) && pip.scs[8] == StateConfig(1, 3) && pip.ConfigAt(8) == 11
    ensures pip.IsAddress(3) && pip.scs[3] == StateConfig(0, 3) && pip.ConfigAt(3) == 10
    ensures pip.IsAddress(0) && pip.scs[0] == StateConfig(0, 0) && pip.ConfigAt(0) == 0
    ensures pip.IsAddress(5) && pip.scs[5] == StateConfig(1, 0) && pip.ConfigAt(5) == 4
  {
    TotalsAreRight(pip);
    var z := AddressIs(pip, TheTotals(), 1, 3);
    z := AddressIs(pip, TheTotals(), 0, 3);
    z := AddressIs(pip, TheTotals(), 0, 0);
    z := AddressIs(pip, TheTotals(), 1, 0);
  }

  /** Only the start state goes to the state after the first `a`. */
  lemma OneWayIn(s: nat)
    requires s < 9 && HasShift(TheStates()[s], A, 1)
    ensures s == 0
  {
    var k :| 0 <= k < |TheActions()[s]| && TheActions()[s][k] == ActionInProgress(Shift(1), {A});
    assert s == 0;
  }

  lemma OnlyPredecessor(pip: ParserInProgress, a: nat, b: nat)
    requires pip == TheMachine() && (a == 8 || a == 3) && IsTransitionPredecessor(pip, a, b)
    ensures a == 8 && b == 3
  {
    hide TheActions;
    SomeAddresses(pip);
    TotalsAreRight(pip);
    var c, s := pip.ConfigAt(b), pip.scs[b].state;
    assert c == 10;
    OneWayIn(s);
    AddressHas(pip, TheTotals(), b);
    assert pip.states[0].configs == [0, 3, 7, 10, 12];
  }

  lemma OnlyImmediatePredecessor(pip: ParserInProgress, b: nat)
    requires pip == TheMachine() && IsImmediatePredecessor(pip, 3, b)
    ensures b == 0
  {
    hide TheActions;
    SomeAddresses(pip);
    TotalsAreRight(pip);
    AddressHas(pip, TheTotals(), b);
    assert pip.states[0].configs == [0, 3, 7, 10, 12];
  }

  /** In the canonical machine A ::= a . has only `t` as its lookahead after the first `a`. */
  ghost predicate IsFine(item: Item) {
    item.address == 8 || item.address == 3 ==> item.lookahead == T
  }

  lemma StepIsFine(pip: ParserInProgress, a: Item, b: Item)
    requires pip == TheMachine() && pip.Valid() && IsFine(a) && IsItemStep(pip, a, b)
    ensures IsFine(b)
  {
    hide TheMachine, TheActions, TheStates, ParserInProgress.Valid, FollowsWith, DotAtStart;
    SomeAddresses(pip);
    DotHasMoved(pip);
    if b.address == 8 || b.address == 3 {
      if IsTransitionPredecessor(pip, b.address, a.address) && b.lookahead == a.lookahead {
        OnlyPredecessor(pip, b.address, a.address);
      } else {
        assert b.address == 3;
        OnlyImmediatePredecessor(pip, a.address);
        TOnlyFollows(pip, a.lookahead, b.lookahead);
      }
    }
  }

  lemma DotHasMoved(pip: ParserInProgress)
    requires pip == TheMachine() && pip.IsAddress(8) && pip.ConfigAt(8) == 11
    ensures !DotAtStart(pip, 8)
  {
  }

  lemma TOnlyFollows(pip: ParserInProgress, t: int, u: int)
    requires pip == TheMachine() && pip.Valid() && pip.IsAddress(0) && pip.ConfigAt(0) == 0 && FollowsWith(pip, 0, t, u)
    ensures u == T
  {
    assert FollowString(pip, 0) == [T];
    TerminalLeadsItself(pip.g, T, u);
    TerminalLeadsItself(pip.g, T, FIRST_NULL);
  }

  lemma RunIsFine(pip: ParserInProgress, run: seq<Item>)
    requires pip == TheMachine() && pip.Valid() && IsItemRun(pip, 12, run)
    ensures IsFine(run[|run| - 1])
    decreases |run|
  {
    hide TheMachine, TheActions, TheStates, ParserInProgress.Valid;
    if |run| == 1 {
      SomeAddresses(pip);
    } else {
      LastRunStep(pip, 12, run);
      RunIsFine(pip, run[..|run| - 1]);
      StepIsFine(pip, run[|run| - 2], run[|run| - 1]);
    }
  }

  lemma TheReductionIsAt(pip: ParserInProgress, z: nat)
    requires pip == TheMachine() && IsReductionOf(pip, 1, z, OnReduce(3))
    ensures z == 8
  {
    hide TheActions;
    TotalsAreRight(pip);
    AddressHas(pip, TheTotals(), z);
    assert pip.states[1].configs == [4, 8, 10, 11];
  }

  lemma ReducedBeforeT(pip: ParserInProgress, t: int)
    requires pip == TheMachine() && pip.Valid() && IsPossibleByItems(pip, 12, 1, OnReduce(3), t)
    ensures t == T
  {
    hide TheMachine, TheActions, TheStates, ParserInProgress.Valid;
    var z: nat :| IsReductionOf(pip, 1, z, OnReduce(3)) && IsLr1Item(pip, 12, Item(z, t));
    TheReductionIsAt(pip, z);
    var run, last := RunOf(pip, 12, Item(z, t));
    FrontRun(pip, run, last);
    RunIsFine(pip, run[..last + 1]);
  }

  lemma FrontRun(pip: ParserInProgress, run: seq<Item>, last: nat)
    requires pip.Valid() && IsItemRun(pip, 12, run) && last < |run|
    ensures IsItemRun(pip, 12, run[..last + 1])
  {
    var front := run[..last + 1];
    forall i
      ensures IsRunStep(pip, front, i)
    {
      assert IsRunStep(pip, run, i);
    }
  }

  lemma AllAreDistinguished(pip: ParserInProgress, s: nat, k: nat, l: nat, t: int)
    requires pip == TheMachine() && pip.Valid() && s < 9 && k < l < |pip.states[s].actions|
    ensures AreDistinguished(pip, 12, s, k, l, t)
  {
    hide ParserInProgress.Valid, IsPossibleByItems, TheItems, TheConfigs;
    var a, b := pip.states[s].actions[k], pip.states[s].actions[l];
    assert a == TheActions()[s][k] && b == TheActions()[s][l];
    ShiftIsPossible(pip, s, a, t);
    ShiftIsPossible(pip, s, b, t);
    if s == 1 && l == 3 && IsPossibleByItems(pip, 12, 1, OnReduce(3), t) {
      ReducedBeforeT(pip, t);
    }
  }

  lemma ShiftIsPossible(pip: ParserInProgress, s: nat, a: ActionInProgress, t: int)
    requires pip.Valid()
    ensures a.action.Shift? ==> (IsPossibleByItems(pip, 12, s, a, t) <==> t in a.context)
  {
  }

  /** The grammar is LALR(1). */
  lemma IsLalr1(pip: ParserInProgress)
    requires pip == TheMachine()
    ensures pip.Valid() && IsLr0Machine(pip.g, pip.cs, 12, pip.states) && IsLalr1Machine(pip, 12)
  {
    hide TheMachine, TheActions, ParserInProgress.Valid, IsLr0Machine, AreDistinguished;
    IsTheMachine(pip);
    forall s: nat, k, l, t | s < |pip.states| && 0 <= k < l < |pip.states[s].actions|
      ensures AreDistinguished(pip, 12, s, k, l, t)
    {
      NineStates(pip);
      AllAreDistinguished(pip, s, k, l, t);
    }
  }

  lemma NineStates(pip: ParserInProgress)
    requires pip == TheMachine()
    ensures |pip.states| == 9
  {
  }

  // ----- and has a conflict all the same -----

  /** In the state after `a`, the config A ::= a . gets S ::= a . A x as an originator although no
      derivation expands that A before the `a` is read. */
  lemma OriginatorsMayNotBeLalr(pip: ParserInProgress)
    requires pip == TheMachine()
    ensures IsOriginator(pip, 8, 5) && !IsLalrOriginator(pip, 8, 5)
  {
    hide TheActions, TheStates;
    SomeAddresses(pip);
    ComesFromItself(pip, 8);
    assert IsImmediatePredecessor(pip, 8, 5);
    DotHasMoved(pip);
    forall y: nat | ComesFrom(pip, 8, y)
      ensures y == 8 || y == 3
    {
      var path :| IsTransitionPath(pip, path, 8, y);
      var found: set<int> := {8, 3};
      forall a: nat, b: nat | a in found && IsTransitionPredecessor(pip, a, b)
        ensures b in found
      {
        OnlyPredecessor(pip, a, b);
      }
      ClosedSetHoldsPath(pip, found, path, 8, y);
    }
  }

  lemma SetUpHasOriginators(
      lg: LaneGraph, pip: ParserInProgress, og: ParserGraph, firstSets: seq<set<int>>)
    requires IsSetUp(lg, pip, og, firstSets, 12)
    ensures lg.Valid() && lg.og == og && |og| == |pip.scs|
    ensures forall z: nat, w: nat :: z < |og| ==> (HasEdge(og, z, w) <==> IsOriginator(pip, z, w))
  {
  }

  lemma XIsNext(pip: ParserInProgress)
    requires pip == TheMachine() && pip.Valid() && pip.IsAddress(5) && pip.ConfigAt(5) == 4
    ensures InFirst(pip.g, FollowString(pip, 5), X)
  {
    hide TheActions, TheStates, TheItems, InFirst, MachineOf, ParserInProgress.Valid;
    TheGrammarAccepts();
    assert TheGrammar().productions[1].rhs[2..] == [X];
    TerminalLeadsItself(TheGrammar(), X, X);
    MachineHas(pip);
  }

  lemma MachineHas(pip: ParserInProgress)
    requires pip == TheMachine()
    ensures pip.g == TheGrammar() && pip.cs == TheConfigs()
  {
  }

  lemma XIsContext(lg: LaneGraph, pip: ParserInProgress, og: ParserGraph, firstSets: seq<set<int>>)
    requires pip == TheMachine() && pip.Valid() && IsSetUp(lg, pip, og, firstSets, 12)
    ensures lg.Valid() && InContext(lg, 8, X)
  {
    hide TheMachine, ParserInProgress.Valid, IsOriginatorGraph, Exact;
    SomeAddresses(pip);
    SetUpHasOriginators(lg, pip, og, firstSets);
    OriginatorsMayNotBeLalr(pip);
    XIsNext(pip);
    FirstOfFollow(lg, pip, og, firstSets, 5, X);
    assert HasEdge(og, 8, 5);
    FirstIsContext(lg, 8, 5, X);
  }

  lemma ShiftAndReduceX(pip: ParserInProgress)
    requires pip == TheMachine()
    ensures |pip.states| == 9 && |pip.states[1].actions| == 4
    ensures pip.states[1].actions[1] == OnShift(X, 5) && pip.states[1].actions[3] == OnReduce(3)
    ensures IsReductionOf(pip, 1, 8, OnReduce(3)) && pip.g.IsTerminal(X)
  {
    SomeAddresses(pip);
  }

  /** So `x` is a context of A ::= a . and clashes with the shift on `x`, although the grammar is LALR(1). */
  lemma Lalr1GrammarHasConflict(
      lg: LaneGraph, pip: ParserInProgress, og: ParserGraph, firstSets: seq<set<int>>)
    requires pip == TheMachine() && IsSetUp(lg, pip, og, firstSets, 12)
    ensures pip.Valid() && IsLalr1Machine(pip, 12) && lg.Valid() && !IsConflictFree(lg, pip)
  {
    hide TheMachine, ParserInProgress.Valid, IsLalr1Machine, IsLr0Machine, IsSetUp, IsReductionOf;
    IsLalr1(pip);
    XIsContext(lg, pip, og, firstSets);
    ShiftAndReduceX(pip);
    assert IsPossible(lg, pip, 1, OnReduce(3), X) && IsPossible(lg, pip, 1, OnShift(X, 5), X);
    assert MayClash(lg, pip, 1, OnShift(X, 5), OnReduce(3));
    assert !StateIsConflictFree(lg, pip, 1);
  }

  // ----- so the construction refuses it -----

  lemma ExpectingConfigs(g: Grammar, cs: Configs, c: int)
    requires g == TheGrammar() && cs == TheConfigs() && 0 <= c < |cs| && 4 <= SymbolAfterDot(g, cs, c)
    ensures c == 0 || c == 4 || c == 12
  {
  }

  /** Only S' ::= . S has nothing after the symbol it expects. */
  lemma FollowsAre(pip: ParserInProgress, w: nat)
    requires pip == TheMachine() && pip.IsAddress(w) && 0 <= pip.ConfigAt(w) < |pip.cs|
    requires pip.cs[pip.ConfigAt(w)].production < |pip.g.productions|
    requires 4 <= SymbolAfterDot(pip.g, pip.cs, pip.ConfigAt(w))
    ensures FollowString(pip, w) == [T] || FollowString(pip, w) == [X] || IsAccepting(pip, w)
  {
    hide MachineOf, TheStates;
    MachineHas(pip);
    var c := pip.ConfigAt(w);
    ExpectingConfigs(pip.g, pip.cs, c);
    if c == 0 {
      assert TheGrammar().productions[0].rhs[1..] == [T];
    } else if c == 4 {
      assert TheGrammar().productions[1].rhs[2..] == [X];
    } else {
      assert pip.cs[12] == Config(4, 0);
    }
  }

  lemma ContinuesToEnd(
      lg: LaneGraph, pip: ParserInProgress, og: ParserGraph, firstSets: seq<set<int>>, z: nat, w: nat)
    requires pip == TheMachine() && IsSetUp(lg, pip, og, firstSets, 12) && lg.Valid() && Continues(lg, z, w)
    ensures IsAccepting(pip, w)
  {
    hide TheMachine, IsSetUp, IsOriginatorGraph, Exact, FirstOfString, ParserInProgress.Valid, TheGrammar, TheConfigs,
      IsAccepting, FollowString;
    TheGrammarHas(pip);
    OriginatorExpects(lg, pip, og, firstSets, z, w);
    SetUpHasFirst(lg, pip, og, firstSets, 12, w);
    FollowsAre(pip, w);
    if FollowString(pip, w) == [T] {
      TerminalFollows(pip.g, firstSets, T);
    } else if FollowString(pip, w) == [X] {
      TerminalFollows(pip.g, firstSets, X);
    }
  }

  lemma TheGrammarHas(pip: ParserInProgress)
    requires pip == TheMachine()
    ensures pip.g.nterminals == 4 && pip.g.IsTerminal(T) && pip.g.IsTerminal(X) && pip.g.nsymbols == 7
  {
  }

  lemma OriginatorExpects(
      lg: LaneGraph, pip: ParserInProgress, og: ParserGraph, firstSets: seq<set<int>>, z: nat, w: nat)
    requires IsSetUp(lg, pip, og, firstSets, 12) && lg.Valid() && HasEdge(lg.og, z, w)
    ensures pip.IsAddress(w) && 0 <= pip.ConfigAt(w) < |pip.cs|
    ensures pip.cs[pip.ConfigAt(w)].production < |pip.g.productions|
    ensures pip.g.nterminals <= SymbolAfterDot(pip.g, pip.cs, pip.ConfigAt(w))
  {
    assert IsOriginator(pip, z, w);
    var y: nat :| ComesFrom(pip, z, y) && IsImmediatePredecessor(pip, y, w);
  }

  /** No lane goes on from an accepting config, so no lane comes back. */
  lemma LanesAreAcyclic(
      lg: LaneGraph, pip: ParserInProgress, og: ParserGraph, firstSets: seq<set<int>>)
    requires pip == TheMachine() && IsSetUp(lg, pip, og, firstSets, 12) && lg.Valid()
    ensures IsAcyclic(lg)
  {
    hide TheMachine, IsSetUp, IsAccepting, Reaches, Continues;
    forall z: nat
      ensures !Leads(lg, z, z)
    {
      if Leads(lg, z, z) {
        var x: nat :| Continues(lg, z, x) && Reaches(lg, x, z);
        ContinuesToEnd(lg, pip, og, firstSets, z, x);
        EndReachesItself(lg, pip, og, firstSets, x, z);
        EndDoesNotContinue(lg, pip, og, firstSets, z, x);
      }
    }
  }

  lemma EndDoesNotContinue(
      lg: LaneGraph, pip: ParserInProgress, og: ParserGraph, firstSets: seq<set<int>>, z: nat, w: nat)
    requires IsSetUp(lg, pip, og, firstSets, 12) && lg.Valid() && IsAccepting(pip, z)
    ensures !Continues(lg, z, w)
  {
    AcceptingHasNoOriginator(pip, z, w);
  }

  lemma EndReachesItself(
      lg: LaneGraph, pip: ParserInProgress, og: ParserGraph, firstSets: seq<set<int>>, x: nat, y: nat)
    requires IsSetUp(lg, pip, og, firstSets, 12) && lg.Valid() && IsAccepting(pip, x) && Reaches(lg, x, y)
    ensures x == y
  {
    hide IsSetUp, IsAccepting, Continues;
    var path :| IsLane(lg, path, x, y);
    if |path| > 1 {
      FirstStep(lg, path, x, y);
      EndDoesNotContinue(lg, pip, og, firstSets, x, path[1]);
    }
  }

  lemma StateNeedsContexts(pip: ParserInProgress)
    requires pip == TheMachine()
    ensures |pip.states| == 9 && !IsAdequate(pip.g, pip.states[1])
  {
    hide IsReductionOf;
    ShiftAndReduceX(pip);
    var actions := pip.states[1].actions;
    assert pip.g == TheGrammar();
    assert X in actions[1].context && X in actions[3].context;
    assert Clash(pip.g, actions[1], actions[3]);
  }

  /** The construction, from the machine on, refuses the grammar, which is LALR(1). */
  method RefuseTheMachine(pip: ParserInProgress)
    returns (verdict: Verdict, out: ParserInProgress, ghost c: Construction)
    requires pip == TheMachine()
    ensures c.lr0 == pip && c.HasLanes() && IsLalr1Machine(pip, c.start)
    ensures verdict.IsNotLalr1? && c.Justifies(verdict, out)
  {
    hide TheMachine, IsLalr1Machine, IsConflictFree, IsSetUp, IsLr0Machine, ParserInProgress.Valid, IsAdequate,
      IsAcyclic, HasTangle, HasSnare, IsAmbiguous, Construction.HasTraced, Construction.HasAllContexts, IsBrokenLog;
    IsLalr1(pip);
    StateNeedsContexts(pip);
    verdict, out, c := FinishParser(pip, 12);
    Lalr1GrammarHasConflict(c.lg, pip, c.og, c.firstSets);
    LanesAreAcyclic(c.lg, pip, c.og, c.firstSets);
    AcyclicIsHarmless(c.lg);
    if verdict.IsLalr1? {
      AllContextsAreFound(c, out);
    }
  }
}
