/** A grammar without conflicts for which lane tracing loses a context: the machine, written out, and the lanes
    on which that happens. */
module LossGrammar {
  import opened Containers
  import opened Grammars
  import opened FirstSets
  import opened Lr0
  import opened Originators
  import opened Lanes
  import opened LaneRuns
  import opened LaneTracing
  import opened FailedChecks
  import opened LaneLoss
  import opened Pushers
  import opened Lookaheads
  import opened Adequacy
  import opened Conflicts
  import opened Lalr
  import opened Sheets

  /** B ::= 3 D, D ::= 4 C, S ::= C 2, S ::= 4 B, C ::= 0 B, C ::= 5 C, D ::= 4, where S is 7, B is 8, C is 9,
      D is 10, and 11 accepts. */
  function TheGrammar(): Grammar {
    Grammar(12, 7, [Production(8, [3, 10]), Production(10, [4, 9]), Production(7, [9, 2]), Production(7, [4, 8]),
                    Production(9, [0, 8]), Production(9, [5, 9]), Production(10, [4]), Production(11, [7])])
  }

  function TheConfigs(): Configs {
    [Config(0, 0), Config(0, 1), Config(0, 2), Config(1, 0), Config(1, 1), Config(1, 2), Config(2, 0), Config(2, 1),
     Config(2, 2), Config(3, 0), Config(3, 1), Config(3, 2), Config(4, 0), Config(4, 1), Config(4, 2), Config(5, 0),
     Config(5, 1), Config(5, 2), Config(6, 0), Config(6, 1), Config(7, 0), Config(7, 1)]
  }

  function Items(s: nat): seq<int> {
    if s == 0 then [6, 9, 12, 15, 20] else if s == 1 then [0, 13] else if s == 2 then [0, 10] else
    if s == 3 then [12, 15, 16] else if s == 4 then [21] else if s == 5 then [7] else
    if s == 6 then [1, 3, 18] else if s == 7 then [14] else if s == 8 then [11] else if s == 9 then [17] else
    if s == 10 then [8] else if s == 11 then [4, 12, 15, 19] else if s == 12 then [2] else [5]
  }

  function TheItems(): (items: seq<seq<int>>)
    ensures |items| == 14 && forall s :: 0 <= s < 14 ==> items[s] == Items(s)
  {
    seq(14, s requires 0 <= s < 14 => Items(s))
  }

  /** In what order the configs of each state are found, those of the kernel first. */
  function Order(s: nat): seq<int> {
    if s == 0 then [20, 6, 9, 12, 15] else if s == 1 then [13, 0] else if s == 2 then [10, 0]
    else if s == 3 then [16, 12, 15] else if s == 11 then [4, 19, 12, 15] else Items(s)
  }

  function Kernel(s: nat): set<int> {
    if s == 0 then {20} else if s == 1 then {13} else if s == 2 then {10} else if s == 3 then {16} else
    if s == 4 then {21} else if s == 5 then {7} else if s == 6 then {1} else if s == 7 then {14} else
    if s == 8 then {11} else if s == 9 then {17} else if s == 10 then {8} else if s == 11 then {4, 19} else
    if s == 12 then {2} else {5}
  }

  function Symbols(s: nat): seq<int> {
    if s == 0 then [0, 4, 5, 7, 9]
    else if s == 5 then [2]
    else if s == 6 then [4, 10]
    else if s == 1 || s == 2 then [3, 8]
    else if s == 3 || s == 11 then [0, 5, 9]
    else []
  }

  function Targets(s: nat): seq<nat> {
    if s == 0 then [1, 2, 3, 4, 5]
    else if s == 1 then [6, 7]
    else if s == 2 then [6, 8]
    else if s == 3 then [1, 3, 9]
    else if s == 5 then [10]
    else if s == 6 then [11, 12]
    else if s == 11 then [1, 3, 13]
    else []
  }

  /** The production that a state reduces. */
  function Reduced(s: nat): nat {
    if s == 4 then 7 else if s == 7 then 4 else if s == 8 then 3 else if s == 9 then 5
    else if s == 10 then 2 else if s == 11 then 6 else if s == 12 then 0 else 1
  }

  predicate IsReducing(s: nat) {
    s == 4 || 7 <= s
  }

  ghost function TheStates(): (states: seq<State>)
    ensures |states| == 14
    ensures forall s :: 0 <= s < 14 ==> states[s] == State(Items(s), AllInLr0Context(TheGrammar(),
      ShiftsTo(Symbols(s), Targets(s))
      + if IsReducing(s) then [ActionInProgress(Reduce(Reduced(s)), {})] else []))
  {
    seq(14, s requires 0 <= s < 14 => State(Items(s), AllInLr0Context(TheGrammar(),
      ShiftsTo(Symbols(s), Targets(s))
      + if IsReducing(s) then [ActionInProgress(Reduce(Reduced(s)), {})] else [])))
  }

  ghost function TheMachine(): ParserInProgress {
    MachineOf(TheGrammar(), TheConfigs(), TheStates())
  }

  // ----- it is the machine of the grammar -----

  lemma TheGrammarAccepts()
    ensures TheGrammar().HasAccept()
  {
  }

  lemma ConfigsOf(g: Grammar, cs: Configs, at: seq<nat>, p: int)
    requires g == TheGrammar() && cs == TheConfigs() && at == [0, 3, 6, 9, 12, 15, 18, 20, 22]
    ensures HasConfigsAt(g, cs, at, p)
  {
    if 0 <= p < 6 {
      assert at[p] == 3 * p && |g.productions[p].rhs| == 2;
      assert cs[3 * p] == Config(p, 0) && cs[3 * p + 1] == Config(p, 1) && cs[3 * p + 2] == Config(p, 2);
    } else if p == 6 {
      assert |g.productions[6].rhs| == 1;
    } else if p == 7 {
      assert |g.productions[7].rhs| == 1;
    }
  }

  lemma ConfigsAreAll(g: Grammar, cs: Configs)
    requires g == TheGrammar() && cs == TheConfigs()
    ensures AreConfigs(g, cs)
  {
    hide AreConfigs, MarksExactly;
    var at: seq<nat> := [0, 3, 6, 9, 12, 15, 18, 20, 22];
    forall p
      ensures HasConfigsAt(g, cs, at, p)
    {
      ConfigsOf(g, cs, at, p);
    }
    ConfigsAre(g, cs, at);
  }

  function Next(c: int): int {
    if c == 12 then 0 else if c == 7 then 2 else if c == 0 then 3 else
    if c == 3 || c == 9 || c == 18 then 4 else if c == 15 then 5 else if c == 20 then 7 else
    if c == 10 || c == 13 then 8 else if c == 4 || c == 6 || c == 16 then 9 else if c == 1 then 10 else -1
  }

  function Spawn(c: int): seq<int> {
    if c == 1 then [3, 18] else if c == 4 || c == 6 || c == 16 then [12, 15] else if c == 10 || c == 13 then [0]
    else if c == 20 then [6, 9] else []
  }

  function TheSheet(): (sh: Sheet)
    ensures |sh.next| == |sh.spawn| == 22
    ensures forall c :: 0 <= c < 22 ==> sh.next[c] == Next(c) && sh.spawn[c] == Spawn(c)
  {
    Sheet(seq(22, c requires 0 <= c < 22 => Next(c)), seq(22, c requires 0 <= c < 22 => Spawn(c)))
  }

  lemma NextIs(g: Grammar, cs: Configs, c: int)
    requires g == TheGrammar() && cs == TheConfigs() && 0 <= c < 22
    ensures Next(c) == SymbolAfterDot(g, cs, c) < 12
  {
  }

  lemma StartsAre(g: Grammar, cs: Configs, x: int, d: int)
    requires g == TheGrammar() && cs == TheConfigs() && 0 <= x < 12
    ensures d in [[], [], [], [], [], [], [], [6, 9], [0], [12, 15], [3, 18], [20]][x] <==> Starts(g, cs, d, x)
  {
  }

  lemma TheSheetIs(g: Grammar, cs: Configs, sh: Sheet)
    requires g == TheGrammar() && cs == TheConfigs() && sh == TheSheet()
    ensures IsSheet(g, cs, sh)
  {
    hide IsSheet, SymbolAfterDot, Starts;
    var starts: seq<seq<int>> := [[], [], [], [], [], [], [], [6, 9], [0], [12, 15], [3, 18], [20]];
    forall c | 0 <= c < 22
      ensures sh.next[c] == SymbolAfterDot(g, cs, c) < 12
    {
      NextIs(g, cs, c);
    }
    forall x, d | 0 <= x < 12
      ensures d in starts[x] <==> Starts(g, cs, d, x)
    {
      StartsAre(g, cs, x, d);
    }
    SpawnIs(sh, starts);
    SheetIs(g, cs, sh, starts);
  }

  lemma SpawnIs(sh: Sheet, starts: seq<seq<int>>)
    requires sh == TheSheet() && starts == [[], [], [], [], [], [], [], [6, 9], [0], [12, 15], [3, 18], [20]]
    ensures forall c :: 0 <= c < 22 ==>
      sh.next[c] < 12 && sh.spawn[c] == if 7 <= sh.next[c] then starts[sh.next[c]] else []
  {
  }

  lemma StartOrder(sh: Sheet, order: seq<int>)
    requires sh == TheSheet() && order == [20, 6, 9, 12, 15]
    ensures IsOrder(sh, {20}, order)
  {
    hide IsSpawned;
    forall k: nat | 1 <= k < 5
      ensures IsSpawned(sh, order, k)
    {
      SpawnedFrom(sh, order, k, if k <= 2 then 0 else 1);
    }
  }

  lemma LongOrder(sh: Sheet, order: seq<int>, kernel: set<int>, t: nat)
    requires sh == TheSheet() && t in {3, 6, 11} && order == Order(t) && kernel == Kernel(t)
    ensures IsOrder(sh, kernel, order)
  {
    hide IsOrder;
    if t == 3 {
      OrderInOneStep(sh, kernel, [16], 0, order);
    } else if t == 6 {
      OrderInOneStep(sh, kernel, [1], 0, order);
    } else {
      OrderInOneStep(sh, kernel, [4, 19], 0, order);
    }
  }

  lemma OrderOf(sh: Sheet, order: seq<int>, kernel: set<int>, t: nat)
    requires sh == TheSheet() && t < 14 && order == Order(t) && kernel == Kernel(t)
    ensures IsOrder(sh, kernel, order)
  {
    if t == 0 {
      StartOrder(sh, order);
    } else if t in {3, 6, 11} {
      LongOrder(sh, order, kernel, t);
    } else if t == 1 || t == 2 {
      assert order[1] in sh.spawn[order[0]];
      assert IsSpawned(sh, order, 1);
    } else {
      assert order == [order[0]] && sh.spawn[order[0]] == [];
    }
  }

  lemma OrderHasItems(t: nat, c: int)
    requires t < 14
    ensures c in Order(t) <==> c in Items(t)
  {
  }

  ghost predicate MovesOver(sh: Sheet, from: seq<int>, x: int, kernel: set<int>) {
    && |sh.next| == 22 && kernel != {}
    && (forall c :: c in from ==> 0 <= c < 22 && (sh.next[c] == x ==> c + 1 in kernel))
    && (forall d :: d in kernel ==> d - 1 in from && sh.next[d - 1] == x)
  }

  lemma WideKernelOf(sh: Sheet, from: seq<int>, x: int, kernel: set<int>, s: nat, k: nat)
    requires sh == TheSheet() && s in {0, 3, 11} && k < |Symbols(s)|
    requires from == Items(s) && x == Symbols(s)[k]
    requires Targets(s)[k] < 14 && kernel == Kernel(Targets(s)[k])
    ensures MovesOver(sh, from, x, kernel)
  {
    if s == 0 {
      assert (x == 0 ==> 13 in kernel) && (x == 4 ==> 10 in kernel) && (x == 5 ==> 16 in kernel);
      assert (x == 7 ==> 21 in kernel) && (x == 9 ==> 7 in kernel);
    } else {
      assert (x == 0 ==> 13 in kernel) && (x == 5 ==> 16 in kernel);
      assert x == 9 ==> (if s == 3 then 17 else 5) in kernel;
    }
  }

  /** Transition `k` of state `s` moves over what the kernel of its target says. */
  lemma KernelOf(sh: Sheet, from: seq<int>, x: int, kernel: set<int>, s: nat, k: nat)
    requires sh == TheSheet() && s < 14 && k < |Symbols(s)| && from == Items(s) && x == Symbols(s)[k]
    requires Targets(s)[k] < 14 && kernel == Kernel(Targets(s)[k])
    ensures MovesOver(sh, from, x, kernel)
  {
    if s in {0, 3, 11} {
      WideKernelOf(sh, from, x, kernel, s, k);
    } else if s == 1 || s == 2 {
      assert x == 3 ==> 1 in kernel;
      assert x == 8 ==> (if s == 1 then 14 else 11) in kernel;
    } else if s == 5 {
      assert 8 in kernel;
    } else {
      assert s == 6;
      assert (x == 4 ==> 4 in kernel) && (x == 10 ==> 2 in kernel);
    }
  }

  lemma TheGotos(g: Grammar, cs: Configs, sh: Sheet, items: seq<seq<int>>, s: nat, k: nat)
    requires IsSheet(g, cs, sh) && |cs| == 22 && sh == TheSheet() && items == TheItems()
    requires s < 14 && k < |Symbols(s)|
    ensures k < |Targets(s)| && Targets(s)[k] < 14 && 0 <= Symbols(s)[k]
    ensures IsGoto(g, cs, Elements(items[s]), Symbols(s)[k], Elements(items[Targets(s)[k]]))
  {
    TargetsExist(s, k);
    hide IsSheet, IsGoto, IsOrder, TheSheet, Symbols, Targets, Order, Kernel, Items;
    var x, t := Symbols(s)[k], Targets(s)[k];
    OrderOf(sh, Order(t), Kernel(t), t);
    KernelOf(sh, items[s], x, Kernel(t), s, k);
    forall c
      ensures c in Order(t) <==> c in items[t]
    {
      OrderHasItems(t, c);
    }
    GotoIs(g, cs, sh, items[s], x, Kernel(t), Order(t), items[t]);
  }

  lemma TargetsExist(s: nat, k: nat)
    requires s < 14 && k < |Symbols(s)|
    ensures k < |Targets(s)| && Targets(s)[k] < 14 && 0 <= Symbols(s)[k]
  {
  }

  /** State `i` is reached from an earlier one. */
  function ParentOf(i: nat): nat {
    if i <= 5 then 0 else if i <= 7 then 1 else if i == 8 then 2 else if i == 9 then 3 else if i == 10 then 5
    else if i <= 12 then 6 else 11
  }

  function KeyOf(i: nat): nat {
    if 1 <= i <= 5 then i - 1 else if 6 <= i <= 7 then i - 6 else if i == 8 then 1 else if i == 9 then 2
    else if i == 10 then 0 else if 11 <= i <= 12 then i - 11 else 2
  }

  lemma HasTheParent(g: Grammar, cs: Configs, sh: Sheet, items: seq<seq<int>>, i: nat)
    requires IsSheet(g, cs, sh) && |cs| == 22 && sh == TheSheet() && items == TheItems() && 0 < i < 14
    ensures HasParent(g, cs, items, i)
  {
    hide IsSheet, IsGoto, TheSheet, TheItems;
    var s, k := ParentOf(i), KeyOf(i);
    assert k < |Symbols(s)| && Targets(s)[k] == i && s < i;
    TheGotos(g, cs, sh, items, s, k);
  }

  lemma ItemsAreSorted(items: seq<int>, i: nat)
    requires i < 14 && items == Items(i)
    ensures StrictlyIncreasing(items) && forall k :: 0 <= k < |items| ==> 0 <= items[k] < 22
  {
  }

  lemma ItemsDiffer(i: nat, j: nat)
    requires i < j < 14
    ensures Items(i) != Items(j)
  {
    var heads := [6, 0, 0, 12, 21, 7, 1, 14, 11, 17, 8, 4, 2, 5];
    assert Items(i)[0] == heads[i] && Items(j)[0] == heads[j];
    assert Items(1)[1] == 13 && Items(2)[1] == 10;
  }

  lemma StartClosure(g: Grammar, cs: Configs, sh: Sheet, items: seq<seq<int>>)
    requires IsSheet(g, cs, sh) && sh == TheSheet() && items == TheItems()
    ensures |items| == 14 && IsClosure(g, cs, {20}, Elements(items[0]))
  {
    hide IsSheet, IsClosure, IsOrder, TheSheet;
    OrderOf(sh, Order(0), Kernel(0), 0);
    forall c
      ensures c in Order(0) <==> c in items[0]
    {
      OrderHasItems(0, c);
    }
    ClosureIs(g, cs, sh, {20}, Order(0), items[0]);
  }

  lemma IsTheCollection(g: Grammar, cs: Configs, sh: Sheet, items: seq<seq<int>>)
    requires IsSheet(g, cs, sh) && |cs| == 22 && sh == TheSheet() && items == TheItems()
    ensures IsCollection(g, cs, 20, items)
  {
    hide IsSheet, IsClosure, HasParent, TheSheet, TheItems;
    StartClosure(g, cs, sh, items);
    forall i: nat | i < 14
      ensures StrictlyIncreasing(items[i]) && AreIndices(cs, items[i])
    {
      ItemsAreSorted(items[i], i);
    }
    forall i: nat | 0 < i < 14
      ensures HasParent(g, cs, items, i)
    {
      HasTheParent(g, cs, sh, items, i);
    }
    forall i: nat, j: nat | i < j < 14
      ensures items[i] != items[j]
    {
      ItemsDiffer(i, j);
    }
  }

  lemma LastIsComplete(g: Grammar, cs: Configs, s: nat) returns (before: seq<int>, c: int)
    requires g == TheGrammar() && cs == TheConfigs() && s < 14 && IsReducing(s)
    ensures Items(s) == before + [c] && IsComplete(g, cs, c) && cs[c].production == Reduced(s)
    ensures forall d :: d in before ==> 0 <= d < 22 && 0 <= Next(d)
  {
    before := if s == 11 then [4, 12, 15] else [];
    c := if s == 11 then 19 else Items(s)[0];
    assert c == if s == 4 then 21 else if s == 7 then 14 else if s == 8 then 11 else if s == 9 then 17
      else if s == 10 then 8 else if s == 11 then 19 else if s == 12 then 2 else 5;
  }

  lemma {:induction false} TheReductions(g: Grammar, cs: Configs, sh: Sheet, s: nat)
    requires IsSheet(g, cs, sh) && g == TheGrammar() && cs == TheConfigs() && sh == TheSheet() && s < 14
    ensures Reductions(g, cs, Items(s)) == if IsReducing(s) then [ActionInProgress(Reduce(Reduced(s)), {})] else []
  {
    hide IsSheet, Reductions, IsComplete;
    if IsReducing(s) {
      var before, c := LastIsComplete(g, cs, s);
      OneReduction(g, cs, sh, before, c);
    } else {
      NoReductions(g, cs, sh, Items(s));
    }
  }

  lemma ActionsOf(g: Grammar, cs: Configs, sh: Sheet, items: seq<seq<int>>, s: nat, state: State)
    requires IsSheet(g, cs, sh) && g == TheGrammar() && cs == TheConfigs() && sh == TheSheet() && items == TheItems()
    requires s < 14 && state == TheStates()[s]
    ensures HasLr0Actions(g, cs, items, state)
  {
    hide IsSheet, IsGoto, Reductions, HasLr0Actions, AllInLr0Context, TheGrammar, TheConfigs;
    var symbols, targets := Symbols(s), Targets(s);
    TargetsMatch(s);
    ConfigsCount();
    forall k: nat | k < |symbols|
      ensures targets[k] < |items| && IsGoto(g, cs, Elements(items[s]), symbols[k], Elements(items[targets[k]]))
    {
      TheGotos(g, cs, sh, items, s, k);
    }
    ItemsAreSorted(items[s], s);
    TheReductions(g, cs, sh, s);
    SymbolsAreAll(s);
    ActionsAre(g, cs, sh, items, s, state, symbols, targets);
  }

  lemma ConfigsCount()
    ensures |TheConfigs()| == 22
  {
  }

  lemma TargetsMatch(s: nat)
    requires s < 14
    ensures |Symbols(s)| == |Targets(s)| && StrictlyIncreasing(Symbols(s))
  {
  }

  lemma SymbolsAreAll(s: nat)
    requires s < 14
    ensures forall c :: c in Items(s) && 0 <= Next(c) ==> Next(c) in Symbols(s)
  {
  }

  lemma IsTheMachine(pip: ParserInProgress)
    requires pip == TheMachine()
    ensures pip.Valid() && IsLr0Machine(pip.g, pip.cs, 20, pip.states)
  {
    hide AreConfigs, AddressesMatch, IsCollection, HasLr0Actions, Grammar.HasAccept, IsSheet, Items, TheSheet;
    var g, cs, sh := pip.g, pip.cs, TheSheet();
    TheGrammarAccepts();
    ConfigsAreAll(g, cs);
    AddressesAre(pip.states);
    TheSheetIs(g, cs, sh);
    var items := TheItems();
    assert ItemsOf(pip.states) == items;
    IsTheCollection(g, cs, sh, items);
    assert Starts(g, cs, 20, 11);
    forall s: nat | s < 14
      ensures StrictlyIncreasing(pip.states[s].configs) && AreIndices(cs, pip.states[s].configs)
      ensures HasLr0Actions(g, cs, items, pip.states[s])
    {
      ItemsAreSorted(items[s], s);
      ActionsOf(g, cs, sh, items, s, pip.states[s]);
    }
  }

  // ----- every symbol is of use -----

  lemma TerminalsAreUseful(g: Grammar)
    requires g.nterminals <= g.nsymbols
    ensures forall s: nat :: s < g.nterminals ==> IsUseful(g, s)
  {
    forall s: nat | s < g.nterminals
      ensures IsUseful(g, s)
    {
      assert DerivesTerminals(g, Open(s), s);
    }
  }

  lemma {:induction false} NodeIsUseful(g: Grammar, p: nat, children: seq<Tree>)
    requires p < |g.productions| && |children| == |g.productions[p].rhs|
    requires forall i :: 0 <= i < |children| ==>
      IsDerivation(g, children[i]) && Root(g, children[i]) == g.productions[p].rhs[i]
    requires forall i :: 0 <= i < |YieldAll(children)| ==> g.IsTerminal(YieldAll(children)[i])
    ensures IsUseful(g, g.productions[p].lhs)
  {
    var node := Node(p, children);
    assert Root(g, node) == g.productions[p].lhs;
    assert DerivesTerminals(g, node, g.productions[p].lhs);
  }

  lemma ChainIsUseful(g: Grammar, p: nat, t: nat, s: nat)
    requires p < |g.productions| && g.productions[p].rhs == [t, s]
    requires t < g.nsymbols && g.IsTerminal(t) && IsUseful(g, s)
    ensures IsUseful(g, g.productions[p].lhs)
  {
    var tree :| DerivesTerminals(g, tree, s);
    var children := [Open(t), tree];
    assert children[1..] == [tree] && [tree][1..] == [];
    assert YieldAll(children) == [t] + (Yield(tree) + YieldAll([]));
    NodeIsUseful(g, p, children);
  }

  lemma UnitIsUseful(g: Grammar, p: nat, s: nat)
    requires p < |g.productions| && g.productions[p].rhs == [s] && IsUseful(g, s)
    ensures IsUseful(g, g.productions[p].lhs)
  {
    var tree :| DerivesTerminals(g, tree, s);
    assert YieldAll([tree]) == Yield(tree) + YieldAll([tree][1..]) == Yield(tree);
    NodeIsUseful(g, p, [tree]);
  }

  lemma TheGrammarIsProductive(g: Grammar)
    requires g == TheGrammar()
    ensures IsProductive(g)
  {
    hide IsUseful;
    TerminalsAreUseful(g);
    UnitIsUseful(g, 6, 4);
    ChainIsUseful(g, 0, 3, 10);
    ChainIsUseful(g, 4, 0, 8);
    ChainIsUseful(g, 3, 4, 8);
    UnitIsUseful(g, 7, 7);
  }

  // ----- where the lanes go -----

  function TheTotals(): seq<nat> {
    [0, 5, 7, 9, 12, 13, 14, 17, 18, 19, 20, 21, 25, 26, 27]
  }

  lemma TotalsAreRight(pip: ParserInProgress)
    requires pip == TheMachine()
    ensures AreTotals(pip.states, TheTotals())
  {
    hide TheMachine, TheTotals, Items;
    MachineHas(pip);
    TotalsStart();
    forall s
      ensures IsTotal(pip.states, TheTotals(), s)
    {
      if 0 <= s < 14 {
        StateHasItems(pip, s);
        TotalAt(s);
      }
    }
  }

  lemma TotalsStart()
    ensures |TheTotals()| == 15 && TheTotals()[0] == 0
  {
  }

  lemma TotalAt(s: nat)
    requires s < 14
    ensures |TheTotals()| == 15 && TheTotals()[s + 1] == TheTotals()[s] + |Items(s)|
  {
  }

  /** The config and the state at an address on the way. */
  function ConfigOf(z: nat): (nat, nat) {
    if z == 0 then (6, 0) else if z == 1 then (9, 0) else if z == 2 then (12, 0) else if z == 3 then (15, 0)
    else if z == 4 then (20, 0) else if z == 5 then (0, 1) else if z == 6 then (13, 1) else if z == 7 then (0, 2)
    else if z == 8 then (10, 2) else if z == 9 then (12, 3) else if z == 10 then (15, 3) else if z == 11 then (16, 3)
    else if z == 14 then (1, 6) else if z == 15 then (3, 6) else if z == 16 then (18, 6) else if z == 21 then (4, 11)
    else if z == 22 then (12, 11) else if z == 23 then (15, 11) else if z == 24 then (19, 11) else (0, 0)
  }

  predicate IsOnTheWay(z: nat) {
    z <= 11 || (14 <= z <= 16) || (21 <= z <= 24)
  }

  lemma AddressIsOnTheWay(pip: ParserInProgress, z: nat)
    requires pip == TheMachine() && IsOnTheWay(z)
    ensures pip.IsAddress(z) && pip.scs[z].state == ConfigOf(z).1 && pip.ConfigAt(z) == ConfigOf(z).0
  {
    hide MachineOf;
    TotalsAreRight(pip);
    MachineHas(pip);
    var s := ConfigOf(z).1;
    var k := z - TheTotals()[s];
    assert 0 <= k < |Items(s)| && Items(s)[k] == ConfigOf(z).0;
    var w := AddressIs(pip, TheTotals(), s, k);
  }

  lemma MachineHas(pip: ParserInProgress)
    requires pip == TheMachine()
    ensures pip.g == TheGrammar() && pip.cs == TheConfigs() && pip.states == TheStates()
    ensures pip == MachineOf(pip.g, pip.cs, pip.states)
  {
  }

  /** A config of a state has one address only. */
  lemma AddressOfConfig(pip: ParserInProgress, w: nat, z: nat)
    requires pip == TheMachine() && IsOnTheWay(z) && pip.IsAddress(w)
    requires pip.scs[w].state == ConfigOf(z).1 && pip.ConfigAt(w) == ConfigOf(z).0
    ensures w == z
  {
    hide MachineOf;
    TotalsAreRight(pip);
    MachineHas(pip);
    AddressIsOnTheWay(pip, z);
    AddressHas(pip, TheTotals(), w);
    AddressHas(pip, TheTotals(), z);
    ItemsAreSorted(pip.states[pip.scs[w].state].configs, pip.scs[w].state);
  }

  lemma ShiftIs(s: nat, x: int, to: nat)
    requires s < 14
    ensures HasShift(TheStates()[s], x, to) <==>
      exists k :: 0 <= k < |Symbols(s)| && |Targets(s)| == |Symbols(s)| && Symbols(s)[k] == x && Targets(s)[k] == to
  {
    hide Symbols, Targets, Items, Terminals;
    TargetsMatch(s);
    var shifts := ShiftsTo(Symbols(s), Targets(s));
    var actions := TheStates()[s].actions;
    if HasShift(TheStates()[s], x, to) {
      var k :| 0 <= k < |actions| && actions[k] == ActionInProgress(Shift(to), {x});
      assert k < |shifts| && shifts[k].context == {Symbols(s)[k]};
      assert x in shifts[k].context;
    }
    if k :| 0 <= k < |Symbols(s)| && Symbols(s)[k] == x && Targets(s)[k] == to {
      assert actions[k] == ActionInProgress(Shift(to), {x});
    }
  }

  /** From which addresses a transition leads to this one. */
  function Before(z: nat): set<nat> {
    if z == 24 then {16} else if z == 21 then {15} else if z == 14 then {5, 7} else if z == 6 then {2, 9, 22}
    else if z == 11 then {3, 10, 23} else if z == 8 then {1} else {}
  }

  /** Which addresses in the same state expect the left-hand side of this one. */
  function Above(z: nat): set<nat> {
    if z == 15 || z == 16 then {14} else if z == 5 then {6} else if z == 7 then {8} else if z == 2 || z == 3 then {0}
    else if z == 9 || z == 10 || z == 11 then {11} else if z == 22 || z == 23 then {21} else if z == 1 then {4} else {}
  }

  predicate IsTurn(z: nat) {
    z == 24 || z == 21 || z == 14 || z == 6 || z == 11 || z == 8
  }

  predicate IsStop(z: nat) {
    z == 16 || z == 15 || z == 5 || z == 7 || z == 2 || z == 9 || z == 22 || z == 3 || z == 10 || z == 23 || z == 1
  }

  /** The states from which a transition enters the state of `z`, with the address it comes from. */
  lemma EntersFrom(z: nat, s: nat, k: nat) returns (w: nat)
    requires IsTurn(z) && s < 14 && k < |Symbols(s)| && k < |Targets(s)| && Targets(s)[k] == ConfigOf(z).1
    requires Symbols(s)[k] == Next(ConfigOf(z).0 - 1)
    ensures w in Before(z) && ConfigOf(w) == (ConfigOf(z).0 - 1, s)
  {
    w := if z == 24 then 16 else if z == 21 then 15 else if z == 14 then if s == 1 then 5 else 7
      else if z == 6 then if s == 0 then 2 else if s == 3 then 9 else 22
      else if z == 11 then if s == 0 then 3 else if s == 3 then 10 else 23
      else 1;
  }

  lemma Enters(z: nat, w: nat) returns (k: nat)
    requires IsTurn(z) && w in Before(z)
    ensures IsStop(w) && IsOnTheWay(w)
    ensures ConfigOf(w).0 == ConfigOf(z).0 - 1 && ConfigOf(w).1 < 14
    ensures k < |Symbols(ConfigOf(w).1)| == |Targets(ConfigOf(w).1)|
    ensures Symbols(ConfigOf(w).1)[k] == Next(ConfigOf(w).0) && Targets(ConfigOf(w).1)[k] == ConfigOf(z).1
  {
    k := if z == 24 || z == 21 || z == 14 then 0 else if z == 6 then 0
      else if z == 11 then if w == 3 then 2 else 1 else 1;
  }

  lemma AdvanceOf(g: Grammar, cs: Configs, c: int, d: int)
    requires AreConfigs(g, cs) && 0 <= d < |cs| && 0 <= SymbolAfterDot(g, cs, c)
    ensures 0 <= c < |cs| && (cs[d] == Config(cs[c].production, cs[c].dot + 1) <==> d == c + 1)
  {
    assert IsFollowedByAdvance(g, cs, c);
  }

  lemma TransitionIs(pip: ParserInProgress, z: nat, w: nat)
    requires pip == TheMachine() && IsTurn(z)
    ensures IsTransitionPredecessor(pip, z, w) <==> w in Before(z)
  {
    hide TheMachine, IsTransitionPredecessor, Before;
    if IsTransitionPredecessor(pip, z, w) {
      PredecessorIsBefore(pip, z, w);
    }
    if w in Before(z) {
      BeforeIsPredecessor(pip, z, w);
    }
  }

  lemma PredecessorIsBefore(pip: ParserInProgress, z: nat, w: nat)
    requires pip == TheMachine() && IsTurn(z) && IsTransitionPredecessor(pip, z, w)
    ensures w in Before(z)
  {
    hide TheMachine, TheGrammar, TheConfigs, TheStates, Items, SymbolAfterDot, HasShift, Symbols, Targets, Next, Before,
      ConfigOf, AreConfigs, MachineOf, IsOnTheWay, IsStop;
    MachineHas(pip);
    ConfigsCount();
    ConfigsAreAll(pip.g, pip.cs);
    TurnIsOnTheWay(z);
    AddressIsOnTheWay(pip, z);
    var s, c := pip.scs[w].state, pip.ConfigAt(w);
    AdvanceOf(pip.g, pip.cs, c, ConfigOf(z).0);
    NextIs(pip.g, pip.cs, c);
    ShiftIs(s, Next(c), ConfigOf(z).1);
    var k :| 0 <= k < |Symbols(s)| && |Targets(s)| == |Symbols(s)| && Symbols(s)[k] == Next(c)
      && Targets(s)[k] == ConfigOf(z).1;
    var y := EntersFrom(z, s, k);
    k := Enters(z, y);
    AddressOfConfig(pip, w, y);
  }

  lemma BeforeIsPredecessor(pip: ParserInProgress, z: nat, w: nat)
    requires pip == TheMachine() && IsTurn(z) && w in Before(z)
    ensures IsTransitionPredecessor(pip, z, w)
  {
    hide TheMachine, TheGrammar, TheConfigs, TheStates, Items, SymbolAfterDot, HasShift, Symbols, Targets, Next, Before,
      ConfigOf, AreConfigs, MachineOf, IsOnTheWay, IsStop;
    MachineHas(pip);
    ConfigsCount();
    ConfigsAreAll(pip.g, pip.cs);
    TurnIsOnTheWay(z);
    AddressIsOnTheWay(pip, z);
    var k := Enters(z, w);
    AddressIsOnTheWay(pip, w);
    NextIs(pip.g, pip.cs, ConfigOf(w).0);
    SymbolsAreNatural(ConfigOf(w).1, k);
    AdvanceOf(pip.g, pip.cs, ConfigOf(w).0, ConfigOf(z).0);
    ShiftIs(ConfigOf(w).1, Next(ConfigOf(w).0), ConfigOf(z).1);
  }

  lemma TurnIsOnTheWay(z: nat)
    requires IsTurn(z)
    ensures IsOnTheWay(z) && 0 < ConfigOf(z).0 < 22
  {
  }

  lemma SymbolsAreNatural(s: nat, k: nat)
    requires s < 14 && k < |Symbols(s)|
    ensures 0 <= Symbols(s)[k]
  {
  }

  function Left(c: int): int {
    if c <= 2 then 8 else if c <= 5 then 10 else if c <= 11 then 7 else if c <= 17 then 9
    else if c <= 19 then 10 else 11
  }

  lemma LeftIs(g: Grammar, cs: Configs, c: int)
    requires g == TheGrammar() && cs == TheConfigs() && 0 <= c < 22
    ensures cs[c].production < |g.productions| && Lhs(g, cs, c) == Left(c)
  {
    var p := if c < 18 then c / 3 else if c < 20 then 6 else 7;
    assert cs[c].production == p;
    assert g.productions[p].lhs == Left(c);
  }

  /** A config of the state of `z` that expects what `z` expands is at an address above `z`. */
  lemma AboveFrom(z: nat, c: int) returns (w: nat)
    requires (IsTurn(z) || IsStop(z)) && ConfigOf(z).1 < 14 && c in Items(ConfigOf(z).1)
    requires Next(c) == Left(ConfigOf(z).0)
    ensures w in Above(z) && IsOnTheWay(w) && ConfigOf(w) == (c, ConfigOf(z).1)
  {
    w := if z == 15 || z == 16 then 14 else if z == 5 then 6 else if z == 7 then 8 else if z == 2 || z == 3 then 0
      else if z == 9 || z == 10 || z == 11 then 11 else if z == 22 || z == 23 then 21 else 4;
  }

  lemma AboveIs(z: nat, w: nat)
    requires (IsTurn(z) || IsStop(z)) && w in Above(z)
    ensures IsOnTheWay(w) && ConfigOf(w).1 == ConfigOf(z).1 && Next(ConfigOf(w).0) == Left(ConfigOf(z).0)
    ensures ConfigOf(w).0 < 22
  {
  }

  lemma IsOnTheWayToo(z: nat)
    requires IsTurn(z) || IsStop(z)
    ensures IsOnTheWay(z) && ConfigOf(z).0 < 22 && ConfigOf(z).1 < 14
  {
  }

  lemma ImmediateIs(pip: ParserInProgress, z: nat, w: nat)
    requires pip == TheMachine() && (IsTurn(z) || IsStop(z))
    ensures IsImmediatePredecessor(pip, z, w) <==> w in Above(z)
  {
    hide TheMachine, TheGrammar, TheConfigs, Items, SymbolAfterDot, Next, Above, ConfigOf, IsOnTheWay, Left, IsTurn,
      IsStop;
    MachineHas(pip);
    ConfigsCount();
    IsOnTheWayToo(z);
    AddressIsOnTheWay(pip, z);
    LeftIs(pip.g, pip.cs, ConfigOf(z).0);
    if IsImmediatePredecessor(pip, z, w) {
      var s, c := pip.scs[w].state, pip.ConfigAt(w);
      StateHasItems(pip, s);
      ItemsAreSorted(pip.states[s].configs, s);
      NextIs(pip.g, pip.cs, c);
      var y := AboveFrom(z, c);
      AddressOfConfig(pip, w, y);
    }
    if w in Above(z) {
      AboveIs(z, w);
      AddressIsOnTheWay(pip, w);
      NextIs(pip.g, pip.cs, ConfigOf(w).0);
    }
  }

  lemma StateHasItems(pip: ParserInProgress, s: nat)
    requires pip == TheMachine() && s < |pip.states|
    ensures s < 14 && pip.states[s].configs == Items(s)
  {
    hide Items;
  }

  /** No transition leads to a config with its dot at the start. */
  lemma StartHasNoPredecessor(pip: ParserInProgress, z: nat, w: nat)
    requires pip.IsAddress(z) && 0 <= pip.ConfigAt(z) < |pip.cs| && pip.cs[pip.ConfigAt(z)].dot == 0
    ensures !IsTransitionPredecessor(pip, z, w)
  {
  }

  lemma StopIsAtStart(pip: ParserInProgress, z: nat, w: nat)
    requires pip == TheMachine() && IsStop(z)
    ensures !IsTransitionPredecessor(pip, z, w)
  {
    hide TheMachine, TheConfigs, ConfigOf, IsStop, IsOnTheWay, IsTransitionPredecessor;
    MachineHas(pip);
    IsOnTheWayToo(z);
    AddressIsOnTheWay(pip, z);
    StopHasNoDot(pip.cs, z);
    StartHasNoPredecessor(pip, z, w);
  }

  lemma StopHasNoDot(cs: Configs, z: nat)
    requires cs == TheConfigs() && IsStop(z)
    ensures ConfigOf(z).0 < |cs| && cs[ConfigOf(z).0].dot == 0
  {
  }

  /** The originators of a turn. */
  function Originating(z: nat): seq<nat> {
    if z == 24 || z == 21 then [14] else if z == 14 then [6, 8] else if z == 6 || z == 11 then [0, 11, 21] else [4]
  }

  lemma FromAbove(z: nat, y: nat, w: nat)
    requires IsTurn(z) && (y == z || y in Before(z)) && w in Above(y)
    ensures w in Originating(z)
  {
  }

  lemma ToAbove(z: nat, w: nat) returns (y: nat)
    requires IsTurn(z) && w in Originating(z)
    ensures y in Before(z) && IsStop(y) && w in Above(y)
  {
    y := if z == 24 then 16 else if z == 21 then 15 else if z == 14 then if w == 6 then 5 else 7
      else if z == 6 then if w == 0 then 2 else if w == 11 then 9 else 22
      else if z == 11 then if w == 0 then 3 else if w == 11 then 10 else 23
      else 1;
  }

  lemma ComesFromBefore(pip: ParserInProgress, z: nat, y: nat)
    requires pip == TheMachine() && IsTurn(z) && ComesFrom(pip, z, y)
    ensures y == z || y in Before(z)
  {
    hide TheMachine, IsTransitionPredecessor, Before;
    var path :| IsTransitionPath(pip, path, z, y);
    var found: set<int> := {z} + Before(z);
    forall a: nat, b: nat | a in found && IsTransitionPredecessor(pip, a, b)
      ensures b in found
    {
      if a == z {
        TransitionIs(pip, z, b);
      } else {
        var k := Enters(z, a);
        StopIsAtStart(pip, a, b);
      }
    }
    ClosedSetHoldsPath(pip, found, path, z, y);
  }

  lemma OriginatorIs(pip: ParserInProgress, z: nat, w: nat)
    requires pip == TheMachine() && IsTurn(z)
    ensures IsOriginator(pip, z, w) <==> w in Originating(z)
  {
    hide TheMachine, IsTransitionPredecessor, IsImmediatePredecessor, ComesFrom, Before, Above, Originating, IsTurn,
      IsStop;
    if IsOriginator(pip, z, w) {
      var y: nat :| ComesFrom(pip, z, y) && IsImmediatePredecessor(pip, y, w);
      ComesFromBefore(pip, z, y);
      if y != z {
        var k := Enters(z, y);
      }
      ImmediateIs(pip, y, w);
      FromAbove(z, y, w);
    }
    if w in Originating(z) {
      var y := ToAbove(z, w);
      ImmediateIs(pip, y, w);
      TransitionIs(pip, z, y);
      ComesFromItself(pip, z);
      ComesFromFurther(pip, z, z, y);
    }
  }

  lemma RowIs(pip: ParserInProgress, og: ParserGraph, z: nat)
    requires pip == TheMachine() && IsTurn(z) && IsOriginatorGraph(pip, og) && z < |og|
    ensures og[z] == Originating(z)
  {
    hide TheMachine, IsOriginator, IsTurn;
    OriginatingIncreases(z);
    var row, told: seq<int> := og[z], Originating(z);
    forall w | w in Elements(row)
      ensures w in Elements(told)
    {
      OriginatorIs(pip, z, w);
      assert HasEdge(og, z, w);
    }
    forall w | w in Elements(told)
      ensures w in Elements(row)
    {
      OriginatorIs(pip, z, w);
      assert HasEdge(og, z, w);
    }
    IncreasingSeqsAreEqual(row, told);
  }

  lemma OriginatingIncreases(z: nat)
    ensures StrictlyIncreasing(Originating(z))
  {
  }

  // ----- the trap -----

  /** From D ::= 4 . in the state after 3 4: B ::= 3 . D, then C ::= 0 . B and S ::= 4 . B; from the former C ::= 5 . C
      and D ::= 4 . C, which leads back. */
  function TheTrap(): Trap {
    Trap(24, 14, 6, 11, 21, 8, 0, 4, 2, 6)
  }

  /** The address is on the trap. */
  predicate IsInTrap(z: nat) {
    IsTurn(z) || z == 0 || z == 4
  }

  /** What follows the symbol after the dot. */
  lemma MarkOf(g: Grammar, cs: Configs, z: nat)
    requires g == TheGrammar() && cs == TheConfigs() && IsInTrap(z)
    ensures IsOnTheWay(z) && ConfigOf(z).0 < |cs|
    ensures var c := cs[ConfigOf(z).0];
      && c.production < |g.productions| && (c.production == g.AcceptProduction() <==> z == 4)
      && (IsTurn(z) ==> c.dot == 1)
      && (if c.dot + 1 < |g.productions[c.production].rhs| then g.productions[c.production].rhs[c.dot + 1..] else [])
         == if z == 0 then [2] else []
  {
    var c := cs[ConfigOf(z).0];
    assert c == if z == 0 then Config(2, 0) else if z == 4 then Config(7, 0) else if z == 6 then Config(4, 1)
      else if z == 8 then Config(3, 1) else if z == 11 then Config(5, 1) else if z == 14 then Config(0, 1)
      else if z == 21 then Config(1, 1) else Config(6, 1);
  }

  lemma FollowIs(pip: ParserInProgress, z: nat)
    requires pip == TheMachine() && IsInTrap(z)
    ensures pip.IsAddress(z) && 0 <= pip.ConfigAt(z) < |pip.cs|
    ensures pip.cs[pip.ConfigAt(z)].production < |pip.g.productions|
    ensures FollowString(pip, z) == (if z == 0 then [2] else [])
    ensures IsAccepting(pip, z) <==> z == 4
    ensures IsTurn(z) ==> pip.cs[pip.ConfigAt(z)].dot == 1
  {
    hide TheMachine, TheGrammar, TheConfigs, ConfigOf, IsOnTheWay, IsTurn, IsInTrap, FollowString, IsAccepting,
      MachineOf;
    MachineHas(pip);
    MarkOf(pip.g, pip.cs, z);
    AddressIsOnTheWay(pip, z);
    FollowAt(pip, z, pip.cs[ConfigOf(z).0]);
  }

  lemma FollowAt(pip: ParserInProgress, z: nat, c: Config)
    requires pip.IsAddress(z) && 0 <= pip.ConfigAt(z) < |pip.cs| && c == pip.cs[pip.ConfigAt(z)]
    requires c.production < |pip.g.productions|
    ensures IsAccepting(pip, z) <==> c.production == pip.g.AcceptProduction()
    ensures FollowString(pip, z) == if c.dot + 1 < |pip.g.productions[c.production].rhs|
      then pip.g.productions[c.production].rhs[c.dot + 1..] else []
  {
  }

  lemma GrammarIs(g: Grammar)
    requires g == TheGrammar()
    ensures g.Valid() && g.IsTerminal(2) && g.EndTerminal() == 6 && g.nsymbols == 12
  {
    TheGrammarAccepts();
  }

  lemma FirstIs(
      lg: LaneGraph, pip: ParserInProgress, og: ParserGraph, firstSets: seq<set<int>>, z: nat)
    requires pip == TheMachine() && IsSetUp(lg, pip, og, firstSets, 20) && IsInTrap(z)
    ensures lg.Valid() && z < |lg.og|
    ensures lg.first[z] == if z == 0 then {2} else {NULL}
    ensures lg.base[z] == if z == 4 then {6} else {}
  {
    hide TheMachine, TheGrammar, IsSetUp, IsInTrap, FollowString, Exact, FirstOfString, ParserInProgress.Valid;
    FollowIs(pip, z);
    MachineHas(pip);
    GrammarIs(pip.g);
    SetUpHasFirst(lg, pip, og, firstSets, 20, z);
    if z == 0 {
      TerminalFollows(pip.g, firstSets, 2);
    } else {
      NothingFollows(firstSets);
    }
  }

  lemma LaneRowIs(
      lg: LaneGraph, pip: ParserInProgress, og: ParserGraph, firstSets: seq<set<int>>, z: nat)
    requires pip == TheMachine() && IsSetUp(lg, pip, og, firstSets, 20) && IsTurn(z)
    ensures lg.Valid() && z < |lg.og| && lg.og[z] == Originating(z)
  {
    hide TheMachine, IsSetUp, IsOriginatorGraph, FollowString, FirstOfString, IsTurn, Originating,
      ParserInProgress.Valid;
    FollowIs(pip, z);
    SetUpHasFirst(lg, pip, og, firstSets, 20, z);
    RowIs(pip, lg.og, z);
  }

  lemma HasTrap(
      lg: LaneGraph, pip: ParserInProgress, og: ParserGraph, firstSets: seq<set<int>>)
    requires pip == TheMachine() && IsSetUp(lg, pip, og, firstSets, 20)
    ensures TheTrap().IsIn(lg)
  {
    hide TheMachine, IsSetUp;
    forall z: nat | IsTurn(z)
      ensures lg.Valid() && z < |lg.og| && lg.og[z] == Originating(z)
    {
      LaneRowIs(lg, pip, og, firstSets, z);
    }
    forall z: nat | IsInTrap(z)
      ensures lg.Valid() && z < |lg.og| && lg.base[z] == (if z == 4 then {6} else {})
      ensures lg.first[z] == if z == 0 then {2} else {NULL}
    {
      FirstIs(lg, pip, og, firstSets, z);
    }
    assert IsTurn(24) && IsTurn(14) && IsTurn(6) && IsTurn(11) && IsTurn(21) && IsTurn(8);
    assert IsInTrap(14) && IsInTrap(6) && IsInTrap(11) && IsInTrap(21) && IsInTrap(8) && IsInTrap(0) && IsInTrap(4);
    var v: seq<nat> := [24, 14, 6, 11, 21, 8, 4];
    assert AreDistinctAddresses(v);
  }

  lemma TrapHasNoSiblings(pip: ParserInProgress)
    requires pip == TheMachine() && pip.Valid()
    ensures TheTrap().HasNoSiblings(SiblingTable(pip))
  {
    hide TheMachine, ParserInProgress.Valid, FollowString;
    forall z: nat | IsTurn(z)
      ensures z < |SiblingTable(pip)| && SiblingTable(pip)[z] == []
    {
      FollowIs(pip, z);
      NotAtStartHasNoSiblings(pip, z);
    }
    assert IsTurn(24) && IsTurn(14) && IsTurn(6) && IsTurn(11) && IsTurn(21) && IsTurn(8);
  }

  lemma NotAtStartHasNoSiblings(pip: ParserInProgress, z: nat)
    requires pip.Valid() && pip.IsAddress(z) && pip.cs[pip.ConfigAt(z)].dot != 0
    ensures SiblingTable(pip)[z] == []
  {
  }

  // ----- the contexts -----

  /** Lanes from the trap stay in it, and only 2 and the end mark can follow there. */
  predicate IsInside(z: nat) {
    IsTurn(z) || z == 4
  }

  lemma StaysInside(
      lg: LaneGraph, pip: ParserInProgress, og: ParserGraph, firstSets: seq<set<int>>, z: nat, w: nat)
    requires lg.Valid() && HasEdge(lg.og, z, w)
    requires pip == TheMachine() && IsSetUp(lg, pip, og, firstSets, 20) && IsInside(z)
    ensures IsInside(w) || w == 0
  {
    hide TheMachine, IsSetUp;
    if z == 4 {
      NoOriginatorOfEnd(lg, pip, og, firstSets, w);
    } else {
      LaneRowIs(lg, pip, og, firstSets, z);
    }
  }

  lemma NoOriginatorOfEnd(
      lg: LaneGraph, pip: ParserInProgress, og: ParserGraph, firstSets: seq<set<int>>, w: nat)
    requires pip == TheMachine() && IsSetUp(lg, pip, og, firstSets, 20)
    ensures lg.Valid() && !HasEdge(lg.og, 4, w)
  {
    hide TheMachine, IsSetUp, ParserInProgress.Valid, FollowString, FirstOfString, IsOriginator;
    FollowIs(pip, 4);
    SetUpHasFirst(lg, pip, og, firstSets, 20, 4);
    AcceptingHasNoOriginator(pip, 4, w);
  }

  lemma LaneStaysInside(
      lg: LaneGraph, pip: ParserInProgress, og: ParserGraph, firstSets: seq<set<int>>, path: seq<nat>, z: nat, y: nat)
    requires lg.Valid() && IsLane(lg, path, z, y)
    requires pip == TheMachine() && IsSetUp(lg, pip, og, firstSets, 20) && IsInside(z)
    ensures IsInside(y)
    decreases |path|
  {
    hide TheMachine, IsSetUp, IsInside;
    if |path| > 1 {
      FirstStep(lg, path, z, y);
      StaysInside(lg, pip, og, firstSets, z, path[1]);
      if path[1] == 0 {
        ZeroDoesNotContinue(lg, pip, og, firstSets, z);
      }
      LaneStaysInside(lg, pip, og, firstSets, path[1..], path[1], y);
    }
  }

  lemma ZeroDoesNotContinue(
      lg: LaneGraph, pip: ParserInProgress, og: ParserGraph, firstSets: seq<set<int>>, z: nat)
    requires pip == TheMachine() && IsSetUp(lg, pip, og, firstSets, 20)
    ensures lg.Valid() && !Continues(lg, z, 0)
  {
    hide TheMachine, IsSetUp;
    FirstIs(lg, pip, og, firstSets, 0);
  }

  lemma ContextsOfTrap(
      lg: LaneGraph, pip: ParserInProgress, og: ParserGraph, firstSets: seq<set<int>>, t: int)
    requires lg.Valid() && InContext(lg, 24, t)
    requires pip == TheMachine() && IsSetUp(lg, pip, og, firstSets, 20)
    ensures t == 2 || t == 6
  {
    hide TheMachine, IsSetUp;
    var y: nat :| Reaches(lg, 24, y) && y < |lg.og| && Contributes(lg, y, t);
    var path :| IsLane(lg, path, 24, y);
    LaneStaysInside(lg, pip, og, firstSets, path, 24, y);
    FirstIs(lg, pip, og, firstSets, y);
    if t !in lg.base[y] {
      var x: nat :| HasEdge(lg.og, y, x) && t != NULL && t in lg.first[x];
      StaysInside(lg, pip, og, firstSets, y, x);
      FirstIs(lg, pip, og, firstSets, x);
    }
  }

  // ----- the grammar has no conflict, and loses a context -----

  lemma ActionsOfState(pip: ParserInProgress, s: nat, k: nat)
    requires pip == TheMachine() && s < |pip.states| && k < |pip.states[s].actions|
    ensures s < 14 && |Symbols(s)| == |Targets(s)|
    ensures |pip.states[s].actions| == |Symbols(s)| + if IsReducing(s) then 1 else 0
    ensures k < |Symbols(s)| ==> pip.states[s].actions[k] == ActionInProgress(Shift(Targets(s)[k]), {Symbols(s)[k]})
    ensures k == |Symbols(s)| ==>
      pip.states[s].actions[k] == InLr0Context(pip.g, ActionInProgress(Reduce(Reduced(s)), {}))
  {
    hide Symbols, Targets, Items, Reduced, IsReducing, Terminals;
    assert pip.states == TheStates();
    TargetsMatch(s);
  }

  /** The only state with more than one action of which one reduces is the one after 3 4, with D ::= 4 . */
  lemma ReductionIsAt24(pip: ParserInProgress, z: nat)
    requires pip == TheMachine() && pip.IsAddress(z) && pip.scs[z].state == 11
    requires IsComplete(pip.g, pip.cs, pip.ConfigAt(z))
    ensures z == 24
  {
    hide TheMachine, TheGrammar, TheConfigs, TheStates, MachineOf, IsComplete, Items, ConfigOf;
    MachineHas(pip);
    StateHasItems(pip, 11);
    ConfigAt24();
    OnlyComplete(pip.g, pip.cs, pip.ConfigAt(z));
    AddressOfConfig(pip, z, 24);
  }

  lemma ConfigAt24()
    ensures ConfigOf(24) == (19, 11) && IsOnTheWay(24)
  {
  }

  lemma OnlyComplete(g: Grammar, cs: Configs, c: int)
    requires g == TheGrammar() && cs == TheConfigs() && c in Items(11) && IsComplete(g, cs, c)
    ensures c == 19
  {
  }

  lemma StateHasNoConflict(
      lg: LaneGraph, pip: ParserInProgress, og: ParserGraph, firstSets: seq<set<int>>, s: nat)
    requires lg.Valid() && s < |pip.states|
    requires pip == TheMachine() && IsSetUp(lg, pip, og, firstSets, 20)
    ensures StateIsConflictFree(lg, pip, s)
  {
    hide TheMachine, IsSetUp, Symbols, Targets, Items, Reduced, IsReductionOf;
    forall k, l | 0 <= k < l < |pip.states[s].actions|
      ensures !MayClash(lg, pip, s, pip.states[s].actions[k], pip.states[s].actions[l])
    {
      DoNotClash(lg, pip, og, firstSets, s, k, l);
    }
  }

  lemma DoNotClash(
      lg: LaneGraph, pip: ParserInProgress, og: ParserGraph, firstSets: seq<set<int>>, s: nat, k: nat, l: nat)
    requires lg.Valid() && s < |pip.states| && k < l < |pip.states[s].actions|
    requires pip == TheMachine() && IsSetUp(lg, pip, og, firstSets, 20)
    ensures !MayClash(lg, pip, s, pip.states[s].actions[k], pip.states[s].actions[l])
  {
    hide TheMachine, IsSetUp, Symbols, Targets, Items, Reduced, IsReducing;
    var a, b := pip.states[s].actions[k], pip.states[s].actions[l];
    ActionsOfState(pip, s, k);
    ActionsOfState(pip, s, l);
    ReducesAfterShifts(s);
    TargetsMatch(s);
    if t :| IsPossible(lg, pip, s, a, t) && IsPossible(lg, pip, s, b, t) {
      if l == |Symbols(s)| {
        var z: nat :| IsReductionOf(pip, s, z, b) && InContext(lg, z, t);
        ReductionIsAt24(pip, z);
        ContextsOfTrap(lg, pip, og, firstSets, t);
      }
      assert false;
    }
  }

  lemma ReducesAfterShifts(s: nat)
    requires s < 14
    ensures IsReducing(s) && 0 < |Symbols(s)| ==> s == 11
    ensures 2 !in Symbols(11) && 6 !in Symbols(11)
  {
  }

  /** 6, the end mark, can follow D ::= 4 . there, as in 4 3 4. */
  ghost predicate LosesTheEnd(lg: LaneGraph, contexts: seq<set<int>>, complete: seq<bool>)
    requires lg.Valid()
  {
    |contexts| == |complete| == |lg.og| && 24 < |lg.og| && complete[24] && InContext(lg, 24, 6) && 6 !in contexts[24]
  }

  lemma TrapStarts(
      lg: LaneGraph, pip: ParserInProgress, og: ParserGraph, firstSets: seq<set<int>>,
      contexts: seq<set<int>>, complete: seq<bool>)
    requires pip == TheMachine() && IsSetUp(lg, pip, og, firstSets, 20)
    requires AreInitial(pip, contexts, complete) && |pip.scs| == |lg.og|
    ensures TheTrap().IsStart(lg, contexts, complete)
  {
    hide TheMachine, IsSetUp, IsAccepting, Trap.IsIn;
    HasTrap(lg, pip, og, firstSets);
    forall z: nat | IsInTrap(z)
      ensures z < |pip.scs| && complete[z] == (z == 4) && contexts[z] == if z == 4 then {6} else {}
    {
      FollowIs(pip, z);
      MachineHas(pip);
      GrammarIs(pip.g);
    }
    assert IsInTrap(24) && IsInTrap(14) && IsInTrap(6) && IsInTrap(11) && IsInTrap(21) && IsInTrap(8) && IsInTrap(4);
  }

  lemma RunLosesTheEnd(
      lg: LaneGraph, sibs: seq<seq<nat>>, contexts: seq<set<int>>, complete: seq<bool>, outcome: Outcome,
      contexts': seq<set<int>>, complete': seq<bool>)
    requires TheTrap().IsStart(lg, contexts, complete) && TheTrap().HasNoSiblings(sibs) && 24 < |complete|
    requires RunEndsWith(lg, sibs, 24, contexts, complete, outcome, contexts', complete')
    ensures outcome.Done? && lg.Valid() && LosesTheEnd(lg, contexts', complete')
  {
    hide Trap.IsStart, Trap.HasNoSiblings, Turns, InContext;
    var st := RunLosesContext(TheTrap(), lg, sibs, contexts, complete);
    StartHasLanes(lg, contexts, complete);
    var run := Tracing(Started(contexts, complete, 24));
    var n: nat :| var run := Turns(lg, sibs, 24, Tracing(Started(contexts, complete, 24)), n);
      if outcome.Done? then run.Ended? && run.st.contexts == contexts' && run.st.complete == complete'
      else run == Aborted(outcome);
    if n <= 7 {
      OverStays(lg, sibs, 24, run, n, 7);
    } else {
      OverStays(lg, sibs, 24, run, 7, n);
    }
  }

  lemma StartHasLanes(lg: LaneGraph, contexts: seq<set<int>>, complete: seq<bool>)
    requires TheTrap().IsStart(lg, contexts, complete)
    ensures lg.Valid() && 24 < |lg.og|
  {
  }

  lemma LossIsNotSolved(
      lg: LaneGraph, pip: ParserInProgress, contexts: seq<set<int>>, complete: seq<bool>)
    requires IsFound(lg, pip, contexts, complete) && LosesTheEnd(lg, contexts, complete)
    ensures !SolvesEquations(lg, contexts, complete) && HasTangle(lg)
  {
    hide SolvesEquations, HasTangle, InContext;
    FoundIsSettled(lg, pip, contexts, complete);
  }

  lemma StartIsFound(
      lg: LaneGraph, pip: ParserInProgress, og: ParserGraph, firstSets: seq<set<int>>,
      contexts: seq<set<int>>, complete: seq<bool>)
    requires IsSetUp(lg, pip, og, firstSets, 20) && AreInitial(pip, contexts, complete)
    ensures Describes(lg, pip, og, firstSets) && IsSettled(lg, contexts, complete, !HasTangle(lg)) && |og| == |pip.scs|
    ensures lg.og == og
  {
    hide HasTangle;
    InitialContextsAreSettled(lg, pip, og, firstSets, contexts, complete);
  }

  // ----- only that run is made -----

  lemma OneActionIsAdequate(pip: ParserInProgress, s: nat)
    requires pip == TheMachine() && s < |pip.states| && IsReducing(s) && s != 11
    ensures IsAdequate(pip.g, pip.states[s])
  {
    hide TheMachine, Items;
    if pip.states[s].actions != [] {
      ActionsOfState(pip, s, 0);
      ReducesAfterShifts(s);
    }
    assert |pip.states[s].actions| <= 1;
  }

  lemma StateNeedsContexts(pip: ParserInProgress)
    requires pip == TheMachine()
    ensures |pip.states| == 14 && !IsAdequate(pip.g, pip.states[11])
    ensures |pip.states[11].actions| == 4 && pip.states[11].actions[3].action == Reduce(6)
  {
    hide TheMachine, Terminals, Items;
    MachineHas(pip);
    hide TheStates, MachineOf;
    var actions := pip.states[11].actions;
    assert Symbols(11) == [0, 5, 9];
    ActionsOfState(pip, 11, 0);
    ActionsOfState(pip, 11, 3);
    ZeroIsTerminal(pip.g);
    assert 0 in actions[0].context;
    assert Clash(pip.g, actions[0], actions[3]);
  }

  lemma ZeroIsTerminal(g: Grammar)
    requires g == TheGrammar()
    ensures g.IsTerminal(0) && 0 in Terminals(g)
  {
  }

  lemma CompleteIsReduced(g: Grammar, cs: Configs, s: nat, c: int)
    requires g == TheGrammar() && cs == TheConfigs() && s < 14 && c in Items(s) && IsComplete(g, cs, c)
    ensures IsReducing(s)
  {
    hide IsReducing;
    NextIs(g, cs, c);
    assert Next(c) == -1;
    OnlyReducingHasLast(s, c);
  }

  lemma OnlyReducingHasLast(s: nat, c: int)
    requires s < 14 && c in Items(s) && Next(c) == -1
    ensures IsReducing(s)
  {
  }

  lemma OnlyOneToTrace(pip: ParserInProgress, adequate: seq<bool>, y: int)
    requires pip == TheMachine() && pip.Valid() && |adequate| == |pip.states|
    requires forall s :: 0 <= s < |adequate| ==> (adequate[s] <==> IsAdequate(pip.g, pip.states[s]))
    ensures IsToTrace(pip, adequate, y, |pip.states|, 0) <==> y == 24
  {
    hide TheMachine, TheGrammar, TheConfigs, IsComplete, IsAdequate, Items, ConfigOf, IsReducing,
      ParserInProgress.Valid;
    MachineHas(pip);
    ConfigAt24();
    if IsToTrace(pip, adequate, y, |pip.states|, 0) {
      AddressIs24(pip, adequate, y);
    }
    AddressIsOnTheWay(pip, 24);
    StateNeedsContexts(pip);
    NineteenIsComplete(pip.g, pip.cs);
  }

  lemma NineteenIsComplete(g: Grammar, cs: Configs)
    requires g == TheGrammar() && cs == TheConfigs()
    ensures IsComplete(g, cs, 19) && cs[19].production == 6
  {
  }

  lemma AddressIs24(pip: ParserInProgress, adequate: seq<bool>, y: nat)
    requires pip == TheMachine() && pip.Valid() && |adequate| == |pip.states|
    requires forall s :: 0 <= s < |adequate| ==> (adequate[s] <==> IsAdequate(pip.g, pip.states[s]))
    requires IsToTrace(pip, adequate, y, |pip.states|, 0)
    ensures y == 24
  {
    hide TheMachine, TheGrammar, TheConfigs, IsComplete, IsAdequate, Items, ConfigOf, IsReducing,
      ParserInProgress.Valid;
    MachineHas(pip);
    ToTraceHas(pip, adequate, y);
    var s := pip.scs[y].state;
    StateHasItems(pip, s);
    CompleteIsReduced(pip.g, pip.cs, s, pip.ConfigAt(y));
    if s != 11 {
      OneActionIsAdequate(pip, s);
    }
    ReductionIsAt24(pip, y);
  }

  lemma ToTraceHas(pip: ParserInProgress, adequate: seq<bool>, y: nat)
    requires pip.Valid() && |adequate| == |pip.states| && IsToTrace(pip, adequate, y, |pip.states|, 0)
    ensures pip.IsAddress(y) && !adequate[pip.scs[y].state] && IsComplete(pip.g, pip.cs, pip.ConfigAt(y))
    ensures pip.ConfigAt(y) in pip.states[pip.scs[y].state].configs
  {
  }

  // ----- the whole construction -----

  lemma HasNoConflict(
      lg: LaneGraph, pip: ParserInProgress, og: ParserGraph, firstSets: seq<set<int>>)
    requires pip == TheMachine() && IsSetUp(lg, pip, og, firstSets, 20) && lg.Valid()
    ensures IsConflictFree(lg, pip)
  {
    hide TheMachine, IsSetUp, StateIsConflictFree;
    forall s: nat | s < |pip.states|
      ensures StateIsConflictFree(lg, pip, s)
    {
      StateHasNoConflict(lg, pip, og, firstSets, s);
    }
  }

  lemma RunLoses(
      lg: LaneGraph, pip: ParserInProgress, og: ParserGraph, firstSets: seq<set<int>>, before: Found, outcome: Outcome,
      after: Found)
    requires pip == TheMachine() && IsSetUp(lg, pip, og, firstSets, 20) && pip.Valid() && lg.Valid()
    requires AreInitial(pip, before.contexts, before.complete) && IsRun(lg, pip, 24, before, outcome, after)
    ensures outcome.Done? && LosesTheEnd(lg, after.contexts, after.complete)
  {
    hide TheMachine, IsSetUp, ParserInProgress.Valid, Trap.IsStart, Trap.HasNoSiblings, RunEndsWith, LosesTheEnd,
      SomeTurnFails;
    StartIsFound(lg, pip, og, firstSets, before.contexts, before.complete);
    TrapStarts(lg, pip, og, firstSets, before.contexts, before.complete);
    TrapHasNoSiblings(pip);
    NotCompleteYet(lg, before.contexts, before.complete);
    RunLosesTheEnd(lg, SiblingTable(pip), before.contexts, before.complete, outcome, after.contexts, after.complete);
  }

  lemma NotCompleteYet(lg: LaneGraph, contexts: seq<set<int>>, complete: seq<bool>)
    requires TheTrap().IsStart(lg, contexts, complete)
    ensures 24 < |complete| && !complete[24]
  {
  }

  /** The reduction of the machine that is returned has the contexts found for it. */
  lemma ReductionLosesTheEnd(c: Construction, pip: ParserInProgress, out: ParserInProgress)
    requires c.HasLanes() && c.lr0 == pip == TheMachine() && c.HasTraced(out)
    requires LosesTheEnd(c.lg, c.found.contexts, c.found.complete)
    ensures |out.states| == 14 && |out.states[11].actions| == 4
    ensures out.states[11].actions[3].action == Reduce(6) && 6 !in out.states[11].actions[3].context
  {
    hide TheMachine, ParserInProgress.Valid, IsSetUp, IsWholeLog, HasFoundContexts, SolvesEquations, HasTangle, Items,
      InContext, IsReductionOf, IsFound;
    FoundHas(c.lg, pip, c.found.contexts, c.found.complete);
    StateNeedsContexts(pip);
    TwentyFourIsReduced(pip);
    ContextIsItsOwn(
      pip, c.found.contexts, c.found.complete, 11, |pip.states[11].configs|, pip.states[11].actions[3], 24);
  }

  lemma TwentyFourIsReduced(pip: ParserInProgress)
    requires pip == TheMachine()
    ensures |pip.states| == 14 && |pip.states[11].actions| == 4
    ensures IsReductionOf(pip, 11, 24, pip.states[11].actions[3])
    ensures pip.scs[24].configInState < |pip.states[11].configs|
  {
    hide TheMachine, TheGrammar, TheConfigs, IsComplete, ConfigOf;
    MachineHas(pip);
    ConfigAt24();
    StateNeedsContexts(pip);
    AddressIsOnTheWay(pip, 24);
    NineteenIsComplete(pip.g, pip.cs);
  }

  /** The construction, from the machine on: the grammar has no conflict and is accepted, yet the one reduction whose
      lanes are traced is not made at the end of the input, though it should be. */
  method AcceptTheMachine(pip: ParserInProgress)
    returns (verdict: Verdict, out: ParserInProgress, ghost c: Construction)
    requires pip == TheMachine()
    ensures c.HasConflictFreeLanes(pip) && verdict.IsLalr1? && c.Justifies(verdict, out)
    ensures LosesTheEnd(c.lg, c.found.contexts, c.found.complete) && !c.HasAllContexts() && HasTangle(c.lg)
    ensures |out.states| == 14 && |out.states[11].actions| == 4
    ensures out.states[11].actions[3].action == Reduce(6) && 6 !in out.states[11].actions[3].context
  {
    hide TheMachine, IsConflictFree, IsSetUp, IsLr0Machine, ParserInProgress.Valid, IsAdequate, IsToTrace, HasTangle,
      Construction.HasTraced, Construction.HasAllContexts, IsRun, AreInitial, LosesTheEnd, IsBrokenLog;
    IsTheMachine(pip);
    StateNeedsContexts(pip);
    verdict, out, c := FinishParser(pip, 20);
    HasNoConflict(c.lg, pip, c.og, c.firstSets);
    forall y: int
      ensures IsToTrace(pip, c.adequate, y, |pip.states|, 0) <==> y == 24
    {
      OnlyOneToTrace(pip, c.adequate, y);
    }
    ghost var before, outcome, after := OnlyRun(c, verdict, out, 24);
    RunLoses(c.lg, pip, c.og, c.firstSets, before, outcome, after);
    NotAllAreFound(c, out);
    ReductionLosesTheEnd(c, pip, out);
  }

  lemma NotAllAreFound(c: Construction, out: ParserInProgress)
    requires c.HasLanes() && c.HasTraced(out) && LosesTheEnd(c.lg, c.found.contexts, c.found.complete)
    ensures !c.HasAllContexts() && HasTangle(c.lg)
  {
    hide LosesTheEnd, HasTangle, SolvesEquations, IsWholeLog, HasFoundContexts, IsUpdated;
    LossIsNotSolved(c.lg, c.lr0, c.found.contexts, c.found.complete);
  }
}
