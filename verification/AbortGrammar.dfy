/** A grammar without conflicts for which lane tracing is given up: the machine, written out, and its lanes. */
module AbortGrammar {
  import opened Containers
  import opened Grammars
  import opened FirstSets
  import opened Lr0
  import opened Originators
  import opened Lanes
  import opened LaneRuns
  import opened LaneTracing
  import opened LaneLoss
  import opened LaneAbort
  import opened Lookaheads
  import opened Adequacy
  import opened Conflicts
  import opened Lalr
  import opened Sheets

  const END: int := 4

  /** S ::= 1 S | 2 S | 2 0 | 0 S, where S is 5, and 6 accepts. */
  function TheGrammar(): Grammar {
    Grammar(7, 5, [Production(5, [1, 5]), Production(5, [2, 5]), Production(5, [2, 0]), Production(5, [0, 5]),
                   Production(6, [5])])
  }

  function TheConfigs(): Configs {
    [Config(0, 0), Config(0, 1), Config(0, 2), Config(1, 0), Config(1, 1), Config(1, 2), Config(2, 0), Config(2, 1),
     Config(2, 2), Config(3, 0), Config(3, 1), Config(3, 2), Config(4, 0), Config(4, 1)]
  }

  function Items(s: nat): seq<int> {
    if s == 0 then [0, 3, 6, 9, 12] else if s == 1 then [0, 3, 6, 9, 10] else if s == 2 then [0, 1, 3, 6, 9] else
    if s == 3 then [0, 3, 4, 6, 7, 9] else if s == 4 then [13] else if s == 5 then [11] else if s == 6 then [2] else
    if s == 7 then [0, 3, 6, 8, 9, 10] else [5]
  }

  function TheItems(): (items: seq<seq<int>>)
    ensures |items| == 9 && forall s :: 0 <= s < 9 ==> items[s] == Items(s)
  {
    seq(9, s requires 0 <= s < 9 => Items(s))
  }

  /** The kernel of each state, and the config of it that expects S. */
  function KernelList(s: nat): seq<int> {
    if s == 0 then [12] else if s == 1 then [10] else if s == 2 then [1] else if s == 3 then [4, 7] else
    if s == 4 then [13] else if s == 5 then [11] else if s == 6 then [2] else if s == 7 then [10, 8] else [5]
  }

  predicate IsLong(s: nat) {
    s <= 3 || s == 7
  }

  function Symbols(s: nat): seq<int> {
    if IsLong(s) then [0, 1, 2, 5] else []
  }

  function Targets(s: nat): seq<nat> {
    if s == 0 then [1, 2, 3, 4] else if s == 1 then [1, 2, 3, 5] else if s == 2 then [1, 2, 3, 6]
    else if s == 3 then [7, 2, 3, 8] else if s == 7 then [1, 2, 3, 5] else []
  }

  /** The production that a state reduces. */
  function Reduced(s: nat): nat {
    if s == 4 then 4 else if s == 5 then 3 else if s == 6 then 0 else if s == 7 then 2 else 1
  }

  predicate IsReducing(s: nat) {
    4 <= s
  }

  ghost function TheStates(): (states: seq<State>)
    ensures |states| == 9
    ensures forall s :: 0 <= s < 9 ==> states[s] == State(Items(s), AllInLr0Context(TheGrammar(),
      ShiftsTo(Symbols(s), Targets(s))
      + if IsReducing(s) then [ActionInProgress(Reduce(Reduced(s)), {})] else []))
  {
    seq(9, s requires 0 <= s < 9 => State(Items(s), AllInLr0Context(TheGrammar(),
      ShiftsTo(Symbols(s), Targets(s))
      + if IsReducing(s) then [ActionInProgress(Reduce(Reduced(s)), {})] else [])))
  }

  ghost function TheMachine(): ParserInProgress {
    MachineOf(TheGrammar(), TheConfigs(), TheStates())
  }

  // ----- it is the machine of the grammar -----

  lemma TheGrammarAccepts()
    ensures TheGrammar().HasAccept()
  {
  }

  lemma ConfigsOf(g: Grammar, cs: Configs, at: seq<nat>, p: int)
    requires g == TheGrammar() && cs == TheConfigs() && at == [0, 3, 6, 9, 12, 14]
    ensures HasConfigsAt(g, cs, at, p)
  {
    if 0 <= p < 4 {
      assert at[p] == 3 * p && |g.productions[p].rhs| == 2;
      assert cs[3 * p] == Config(p, 0) && cs[3 * p + 1] == Config(p, 1) && cs[3 * p + 2] == Config(p, 2);
    } else if p == 4 {
      assert |g.productions[4].rhs| == 1;
    }
  }

  lemma ConfigsAreAll(g: Grammar, cs: Configs)
    requires g == TheGrammar() && cs == TheConfigs()
    ensures AreConfigs(g, cs)
  {
    hide AreConfigs, MarksExactly;
    var at: seq<nat> := [0, 3, 6, 9, 12, 14];
    forall p
      ensures HasConfigsAt(g, cs, at, p)
    {
      ConfigsOf(g, cs, at, p);
    }
    ConfigsAre(g, cs, at);
  }

  function Next(c: int): int {
    if c == 9 || c == 7 then 0 else if c == 0 then 1 else if c == 3 || c == 6 then 2
    else if c == 1 || c == 4 || c == 10 || c == 12 then 5 else -1
  }

  function Spawn(c: int): seq<int> {
    if Next(c) == 5 then [0, 3, 6, 9] else []
  }

  function TheSheet(): (sh: Sheet)
    ensures |sh.next| == |sh.spawn| == 14
    ensures forall c :: 0 <= c < 14 ==> sh.next[c] == Next(c) && sh.spawn[c] == Spawn(c)
  {
    Sheet(seq(14, c requires 0 <= c < 14 => Next(c)), seq(14, c requires 0 <= c < 14 => Spawn(c)))
  }

  lemma NextIs(g: Grammar, cs: Configs, c: int)
    requires g == TheGrammar() && cs == TheConfigs() && 0 <= c < 14
    ensures Next(c) == SymbolAfterDot(g, cs, c) < 7
  {
  }

  lemma StartsAre(g: Grammar, cs: Configs, x: int, d: int)
    requires g == TheGrammar() && cs == TheConfigs() && 0 <= x < 7
    ensures d in [[], [], [], [], [], [0, 3, 6, 9], [12]][x] <==> Starts(g, cs, d, x)
  {
  }

  lemma TheSheetIs(g: Grammar, cs: Configs, sh: Sheet)
    requires g == TheGrammar() && cs == TheConfigs() && sh == TheSheet()
    ensures IsSheet(g, cs, sh)
  {
    hide IsSheet, SymbolAfterDot, Starts;
    var starts: seq<seq<int>> := [[], [], [], [], [], [0, 3, 6, 9], [12]];
    forall c | 0 <= c < 14
      ensures sh.next[c] == SymbolAfterDot(g, cs, c) < 7
    {
      NextIs(g, cs, c);
    }
    forall x, d | 0 <= x < 7
      ensures d in starts[x] <==> Starts(g, cs, d, x)
    {
      StartsAre(g, cs, x, d);
    }
    SheetIs(g, cs, sh, starts);
  }

  /** In what order the configs of each state are found, those of the kernel first. */
  function Order(s: nat): seq<int> {
    KernelList(s) + Spawn(KernelList(s)[0])
  }

  lemma OrderOf(sh: Sheet, order: seq<int>, kernel: set<int>, t: nat)
    requires sh == TheSheet() && t < 9 && order == Order(t) && kernel == Elements(KernelList(t))
    ensures IsOrder(sh, kernel, order) && kernel != {}
  {
    hide IsOrder;
    assert KernelList(t)[0] in kernel;
    OrderInOneStep(sh, kernel, KernelList(t), 0, order);
  }

  lemma OrderHasItems(t: nat, c: int)
    requires t < 9
    ensures c in Order(t) <==> c in Items(t)
  {
  }

  /** Transition `k` of state `s` moves over what the kernel of its target says. */
  lemma MovesOn(s: nat, k: nat, c: int)
    requires s < 9 && k < |Symbols(s)|
    ensures k < |Targets(s)| && Targets(s)[k] < 9 && 0 <= Symbols(s)[k]
    ensures c in Items(s) ==> 0 <= c < 14 && (Next(c) == Symbols(s)[k] ==> c + 1 in KernelList(Targets(s)[k]))
    ensures c in KernelList(Targets(s)[k]) ==> c - 1 in Items(s) && Next(c - 1) == Symbols(s)[k]
  {
  }

  lemma TheGotos(g: Grammar, cs: Configs, sh: Sheet, items: seq<seq<int>>, s: nat, k: nat)
    requires IsSheet(g, cs, sh) && |cs| == 14 && sh == TheSheet() && items == TheItems()
    requires s < 9 && k < |Symbols(s)|
    ensures k < |Targets(s)| && Targets(s)[k] < 9 && 0 <= Symbols(s)[k]
    ensures IsGoto(g, cs, Elements(items[s]), Symbols(s)[k], Elements(items[Targets(s)[k]]))
  {
    hide IsSheet, IsGoto, IsOrder, Symbols, Targets, Order, KernelList, Items, Next, Spawn;
    MovesOn(s, k, 0);
    var x, t := Symbols(s)[k], Targets(s)[k];
    var kernel := Elements(KernelList(t));
    OrderOf(sh, Order(t), kernel, t);
    assert items[s] == Items(s);
    forall c | c in items[s]
      ensures 0 <= c < 14 && (sh.next[c] == x ==> c + 1 in kernel)
    {
      MovesOn(s, k, c);
    }
    forall c | c in kernel
      ensures c - 1 in items[s] && sh.next[c - 1] == x
    {
      MovesOn(s, k, c);
      MovesOn(s, k, c - 1);
    }
    forall c
      ensures c in Order(t) <==> c in items[t]
    {
      OrderHasItems(t, c);
    }
    GotoIs(g, cs, sh, items[s], x, kernel, Order(t), items[t]);
  }

  /** State `i` is reached from an earlier one. */
  function ParentOf(i: nat): nat {
    if i <= 4 then 0 else if i == 5 then 1 else if i == 6 then 2 else 3
  }

  function KeyOf(i: nat): nat {
    if 1 <= i <= 4 then i - 1 else if i == 7 then 0 else 3
  }

  lemma HasTheParent(g: Grammar, cs: Configs, sh: Sheet, items: seq<seq<int>>, i: nat)
    requires IsSheet(g, cs, sh) && |cs| == 14 && sh == TheSheet() && items == TheItems() && 0 < i < 9
    ensures HasParent(g, cs, items, i)
  {
    hide IsSheet, IsGoto, TheSheet, TheItems;
    var s, k := ParentOf(i), KeyOf(i);
    assert k < |Symbols(s)| && Targets(s)[k] == i && s < i;
    TheGotos(g, cs, sh, items, s, k);
  }

  lemma ItemsAreSorted(items: seq<int>, i: nat)
    requires i < 9 && items == Items(i)
    ensures StrictlyIncreasing(items) && forall k :: 0 <= k < |items| ==> 0 <= items[k] < 14
  {
  }

  lemma ItemsDiffer(i: nat, j: nat)
    requires i < j < 9
    ensures Items(i) != Items(j)
  {
    var a, b := Items(i), Items(j);
    assert a[0] != b[0] || |a| != |b| || (|a| == 5 && (a[1] != b[1] || a[4] != b[4])) || (|a| == 6 && a[2] != b[2]);
  }

  lemma StartClosure(g: Grammar, cs: Configs, sh: Sheet, items: seq<seq<int>>)
    requires IsSheet(g, cs, sh) && sh == TheSheet() && items == TheItems()
    ensures |items| == 9 && IsClosure(g, cs, {12}, Elements(items[0]))
  {
    hide IsSheet, IsClosure, IsOrder, TheSheet;
    assert Elements(KernelList(0)) == {12};
    OrderOf(sh, Order(0), {12}, 0);
    forall c
      ensures c in Order(0) <==> c in items[0]
    {
      OrderHasItems(0, c);
    }
    ClosureIs(g, cs, sh, {12}, Order(0), items[0]);
  }

  lemma IsTheCollection(g: Grammar, cs: Configs, sh: Sheet, items: seq<seq<int>>)
    requires IsSheet(g, cs, sh) && |cs| == 14 && sh == TheSheet() && items == TheItems()
    ensures IsCollection(g, cs, 12, items)
  {
    hide IsSheet, IsClosure, HasParent, TheSheet, TheItems;
    StartClosure(g, cs, sh, items);
    forall i: nat | i < 9
      ensures StrictlyIncreasing(items[i]) && AreIndices(cs, items[i])
    {
      ItemsAreSorted(items[i], i);
    }
    forall i: nat | 0 < i < 9
      ensures HasParent(g, cs, items, i)
    {
      HasTheParent(g, cs, sh, items, i);
    }
    forall i: nat, j: nat | i < j < 9
      ensures items[i] != items[j]
    {
      ItemsDiffer(i, j);
    }
  }

  lemma {:induction false} TheReductions(g: Grammar, cs: Configs, sh: Sheet, s: nat)
    requires IsSheet(g, cs, sh) && g == TheGrammar() && cs == TheConfigs() && sh == TheSheet() && s < 9
    ensures Reductions(g, cs, Items(s)) == if IsReducing(s) then [ActionInProgress(Reduce(Reduced(s)), {})] else []
  {
    hide IsSheet, Reductions, TheGrammar;
    if s == 7 {
      EndsAt8(g, cs, sh);
    } else if IsReducing(s) {
      LastIsComplete(g, cs, s);
      OneReduction(g, cs, sh, [], Items(s)[0]);
      assert Items(s) == [] + [Items(s)[0]];
    } else {
      NoReductions(g, cs, sh, Items(s));
    }
  }

  lemma LastIsComplete(g: Grammar, cs: Configs, s: nat)
    requires g == TheGrammar() && cs == TheConfigs() && s < 9 && IsReducing(s) && s != 7
    ensures |Items(s)| == 1 && IsComplete(g, cs, Items(s)[0]) && cs[Items(s)[0]].production == Reduced(s)
  {
    var c := Items(s)[0];
    assert c == if s == 4 then 13 else if s == 5 then 11 else if s == 6 then 2 else 5;
  }

  /** In the state after 2 0 the complete config has others after it. */
  lemma {:induction false} EndsAt8(g: Grammar, cs: Configs, sh: Sheet)
    requires IsSheet(g, cs, sh) && g == TheGrammar() && cs == TheConfigs() && sh == TheSheet()
    ensures Reductions(g, cs, Items(7)) == [ActionInProgress(Reduce(2), {})]
  {
    hide IsSheet, TheSheet;
    assert IsComplete(g, cs, 8) && cs[8].production == 2;
    OneReduction(g, cs, sh, [0, 3, 6], 8);
    assert !IsComplete(g, cs, 9) && !IsComplete(g, cs, 10);
    var four, five := [0, 3, 6] + [8], [0, 3, 6, 8, 9];
    assert five[..4] == four && five[4] == 9;
    assert Items(7)[..5] == five && Items(7)[5] == 10;
    assert Reductions(g, cs, five) == Reductions(g, cs, four) + [];
    assert Reductions(g, cs, Items(7)) == Reductions(g, cs, five) + [];
  }

  lemma ActionsOf(g: Grammar, cs: Configs, sh: Sheet, items: seq<seq<int>>, s: nat, state: State)
    requires IsSheet(g, cs, sh) && g == TheGrammar() && cs == TheConfigs() && sh == TheSheet() && items == TheItems()
    requires s < 9 && state == TheStates()[s]
    ensures HasLr0Actions(g, cs, items, state)
  {
    hide IsSheet, IsGoto, Reductions, HasLr0Actions, AllInLr0Context, TheGrammar, TheConfigs;
    var symbols, targets := Symbols(s), Targets(s);
    TargetsMatch(s);
    ConfigsCount();
    forall k: nat | k < |symbols|
      ensures targets[k] < |items| && IsGoto(g, cs, Elements(items[s]), symbols[k], Elements(items[targets[k]]))
    {
      TheGotos(g, cs, sh, items, s, k);
    }
    ItemsAreSorted(items[s], s);
    TheReductions(g, cs, sh, s);
    SymbolsAreAll(s);
    ActionsAre(g, cs, sh, items, s, state, symbols, targets);
  }

  lemma ConfigsCount()
    ensures |TheConfigs()| == 14
  {
  }

  lemma TargetsMatch(s: nat)
    requires s < 9
    ensures |Symbols(s)| == |Targets(s)| && StrictlyIncreasing(Symbols(s))
  {
  }

  lemma SymbolsAreAll(s: nat)
    requires s < 9
    ensures forall c :: c in Items(s) && 0 <= Next(c) ==> Next(c) in Symbols(s)
  {
  }

  lemma IsTheMachine(pip: ParserInProgress)
    requires pip == TheMachine()
    ensures pip.Valid() && IsLr0Machine(pip.g, pip.cs, 12, pip.states)
  {
    hide AreConfigs, AddressesMatch, IsCollection, HasLr0Actions, Grammar.HasAccept, IsSheet, Items, TheSheet;
    var g, cs, sh := pip.g, pip.cs, TheSheet();
    TheGrammarAccepts();
    ConfigsAreAll(g, cs);
    AddressesAre(pip.states);
    TheSheetIs(g, cs, sh);
    var items := TheItems();
    assert ItemsOf(pip.states) == items;
    IsTheCollection(g, cs, sh, items);
    assert Starts(g, cs, 12, 6);
    forall s: nat | s < 9
      ensures StrictlyIncreasing(pip.states[s].configs) && AreIndices(cs, pip.states[s].configs)
      ensures HasLr0Actions(g, cs, items, pip.states[s])
    {
      ItemsAreSorted(items[s], s);
      ActionsOf(g, cs, sh, items, s, pip.states[s]);
    }
  }

  // ----- where the lanes go -----

  function TheTotals(): seq<nat> {
    [0, 5, 10, 15, 21, 22, 23, 24, 30, 31]
  }

  lemma TotalsAreRight(pip: ParserInProgress)
    requires pip == TheMachine()
    ensures AreTotals(pip.states, TheTotals())
  {
    hide TheMachine, TheTotals, Items;
    MachineHas(pip);
    TotalsStart();
    forall s
      ensures IsTotal(pip.states, TheTotals(), s)
    {
      if 0 <= s < 9 {
        StateHasItems(pip, s);
        TotalAt(s);
      }
    }
  }

  lemma TotalsStart()
    ensures |TheTotals()| == 10 && TheTotals()[0] == 0
  {
  }

  lemma TotalAt(s: nat)
    requires s < 9
    ensures |TheTotals()| == 10 && TheTotals()[s + 1] == TheTotals()[s] + |Items(s)|
  {
  }

  lemma MachineHas(pip: ParserInProgress)
    requires pip == TheMachine()
    ensures pip.g == TheGrammar() && pip.cs == TheConfigs() && pip.states == TheStates()
    ensures pip == MachineOf(pip.g, pip.cs, pip.states)
  {
  }

  lemma StateHasItems(pip: ParserInProgress, s: nat)
    requires pip == TheMachine() && s < |pip.states|
    ensures s < 9 && pip.states[s].configs == Items(s)
  {
    hide Items;
  }

  /** Where config `c` is among those of state `s`. */
  ghost predicate IsPlace(s: nat, k: nat, c: int) {
    s < 9 && k < |Items(s)| && Items(s)[k] == c
  }

  /** The address of a config, from its place. */
  lemma AddressAt(pip: ParserInProgress, s: nat, k: nat, c: int, z: nat)
    requires pip == TheMachine() && IsPlace(s, k, c) && z == TheTotals()[s] + k
    ensures pip.IsAddress(z) && pip.scs[z].state == s && pip.ConfigAt(z) == c
  {
    hide MachineOf, Items;
    TotalsAreRight(pip);
    MachineHas(pip);
    StateHasItems(pip, s);
    var w := AddressIs(pip, TheTotals(), s, k);
  }

  /** A config of a state has one address only. */
  lemma AddressIsAt(pip: ParserInProgress, w: nat, s: nat, k: nat, c: int, z: nat)
    requires pip == TheMachine() && IsPlace(s, k, c) && z == TheTotals()[s] + k
    requires pip.IsAddress(w) && pip.scs[w].state == s && pip.ConfigAt(w) == c
    ensures w == z
  {
    hide MachineOf, Items;
    TotalsAreRight(pip);
    MachineHas(pip);
    AddressAt(pip, s, k, c, z);
    AddressHas(pip, TheTotals(), w);
    AddressHas(pip, TheTotals(), z);
    StateHasItems(pip, s);
    ItemsAreSorted(pip.states[s].configs, s);
  }

  /** The config of a long state that expects S, its place, and its address. */
  function Expecting(s: nat): (int, nat, nat) {
    if s == 0 then (12, 4, 4) else if s == 1 then (10, 4, 9) else if s == 2 then (1, 1, 11)
    else if s == 3 then (4, 2, 17) else (10, 5, 29)
  }

  lemma ExpectingIs(s: nat)
    requires s < 9 && IsLong(s)
    ensures IsPlace(s, Expecting(s).1, Expecting(s).0) && TheTotals()[s] + Expecting(s).1 == Expecting(s).2
    ensures Next(Expecting(s).0) == 5 && 0 <= Expecting(s).0 < 14
  {
  }

  lemma OnlyExpecting(s: nat, c: int)
    requires s < 9 && c in Items(s) && Next(c) == 5
    ensures IsLong(s) && c == Expecting(s).0
  {
  }

  /** All expanded configs but the first are of S. */
  lemma LeftIs(g: Grammar, cs: Configs, c: int)
    requires g == TheGrammar() && cs == TheConfigs() && 0 <= c < 14
    ensures cs[c].production < |g.productions| && Lhs(g, cs, c) == if c < 12 then 5 else 6
  {
    assert cs[c].production == c / 3;
  }

  /** What expands a config of S is the config of the state that expects S. */
  lemma ImmediateIs(pip: ParserInProgress, z: nat, w: nat)
    requires pip == TheMachine() && pip.IsAddress(z) && pip.ConfigAt(z) < 12
    ensures IsImmediatePredecessor(pip, z, w) <==> IsLong(pip.scs[z].state) && w == Expecting(pip.scs[z].state).2
  {
    hide TheMachine, TheGrammar, TheConfigs, TheStates, Items, SymbolAfterDot, Next, Expecting, IsPlace, TheTotals,
      IsLong;
    MachineHas(pip);
    ConfigsCount();
    var s := pip.scs[z].state;
    StateHasItems(pip, s);
    ItemsAreSorted(pip.states[s].configs, s);
    LeftIs(pip.g, pip.cs, pip.ConfigAt(z));
    if IsImmediatePredecessor(pip, z, w) {
      var c := pip.ConfigAt(w);
      NextIs(pip.g, pip.cs, c);
      OnlyExpecting(s, c);
      ExpectingIs(s);
      AddressIsAt(pip, w, s, Expecting(s).1, c, Expecting(s).2);
    }
    if IsLong(s) && w == Expecting(s).2 {
      ExpectingIs(s);
      AddressAt(pip, s, Expecting(s).1, Expecting(s).0, w);
      NextIs(pip.g, pip.cs, Expecting(s).0);
    }
  }

  lemma ShiftIs(s: nat, x: int, to: nat)
    requires s < 9
    ensures HasShift(TheStates()[s], x, to) <==>
      exists k :: 0 <= k < |Symbols(s)| && |Targets(s)| == |Symbols(s)| && Symbols(s)[k] == x && Targets(s)[k] == to
  {
    hide Symbols, Targets, Items, Terminals;
    TargetsMatch(s);
    var shifts := ShiftsTo(Symbols(s), Targets(s));
    var actions := TheStates()[s].actions;
    if HasShift(TheStates()[s], x, to) {
      var k :| 0 <= k < |actions| && actions[k] == ActionInProgress(Shift(to), {x});
      assert k < |shifts| && shifts[k].context == {Symbols(s)[k]};
      assert x in shifts[k].context;
    }
    if k :| 0 <= k < |Symbols(s)| && Symbols(s)[k] == x && Targets(s)[k] == to {
      assert actions[k] == ActionInProgress(Shift(to), {x});
    }
  }

  lemma AdvanceOf(g: Grammar, cs: Configs, c: int, d: int)
    requires AreConfigs(g, cs) && 0 <= d < |cs| && 0 <= SymbolAfterDot(g, cs, c)
    ensures 0 <= c < |cs| && (cs[d] == Config(cs[c].production, cs[c].dot + 1) <==> d == c + 1)
  {
    assert IsFollowedByAdvance(g, cs, c);
  }

  /** A transition comes from the config before, over the symbol it expects. */
  lemma TransitionIs(pip: ParserInProgress, z: nat, w: nat)
    requires pip == TheMachine() && pip.IsAddress(z) && pip.IsAddress(w)
    ensures IsTransitionPredecessor(pip, z, w) <==>
      && pip.ConfigAt(z) == pip.ConfigAt(w) + 1 && 0 <= Next(pip.ConfigAt(w))
      && HasShift(TheStates()[pip.scs[w].state], Next(pip.ConfigAt(w)), pip.scs[z].state)
  {
    hide TheMachine, TheGrammar, TheConfigs, TheStates, Items, SymbolAfterDot, HasShift, Next, AreConfigs, MachineOf;
    MachineHas(pip);
    ConfigsCount();
    ConfigsAreAll(pip.g, pip.cs);
    StateHasItems(pip, pip.scs[w].state);
    StateHasItems(pip, pip.scs[z].state);
    ItemsAreSorted(pip.states[pip.scs[w].state].configs, pip.scs[w].state);
    ItemsAreSorted(pip.states[pip.scs[z].state].configs, pip.scs[z].state);
    NextIs(pip.g, pip.cs, pip.ConfigAt(w));
    if 0 <= SymbolAfterDot(pip.g, pip.cs, pip.ConfigAt(w)) {
      AdvanceOf(pip.g, pip.cs, pip.ConfigAt(w), pip.ConfigAt(z));
    }
  }

  // ----- the originators of S ::= 2 0 ., S ::= 0 . S and S ::= 1 . S -----

  /** The config and the state of an address on the way. */
  function Spot(z: nat): (int, nat) {
    if z == 27 then (8, 7) else if z == 19 then (7, 3) else if z == 9 then (10, 1) else (1, 2)
  }

  predicate IsOnTheWay(z: nat) {
    z == 27 || z == 19 || z == 9 || z == 11
  }

  lemma SpotIs(pip: ParserInProgress, z: nat)
    requires pip == TheMachine() && IsOnTheWay(z)
    ensures pip.IsAddress(z) && pip.scs[z].state == Spot(z).1 && pip.ConfigAt(z) == Spot(z).0
  {
    var s := Spot(z).1;
    AddressAt(pip, s, z - TheTotals()[s], Spot(z).0, z);
  }

  /** The states from which a transition leads to an address on the way. */
  function From(z: nat): seq<nat> {
    if z == 27 then [3] else if z == 9 then [0, 1, 2, 7] else [0, 1, 2, 3, 7]
  }

  lemma EntersFrom(z: nat, s: nat, k: nat)
    requires IsOnTheWay(z) && s < 9 && k < |Symbols(s)| && k < |Targets(s)|
    requires Symbols(s)[k] == Next(Spot(z).0 - 1) && Targets(s)[k] == Spot(z).1
    ensures s in From(z)
  {
  }

  lemma Enters(z: nat, s: nat) returns (k: nat)
    requires IsOnTheWay(z) && s in From(z)
    ensures IsLong(s) && s < 9 && Spot(z).0 - 1 in Items(s) && k < |Symbols(s)| == |Targets(s)|
    ensures Symbols(s)[k] == Next(Spot(z).0 - 1) && Targets(s)[k] == Spot(z).1 && 0 <= Next(Spot(z).0 - 1)
  {
    k := if z == 11 then 1 else if z == 19 then 2 else 0;
  }

  lemma PredecessorIsFrom(pip: ParserInProgress, z: nat, w: nat)
    requires pip == TheMachine() && IsOnTheWay(z) && IsTransitionPredecessor(pip, z, w)
    ensures pip.scs[w].state in From(z) && pip.ConfigAt(w) == Spot(z).0 - 1
  {
    hide TheMachine, TheStates, Symbols, Targets, Next, Spot, From, IsOnTheWay, HasShift;
    SpotIs(pip, z);
    TransitionIs(pip, z, w);
    var s := pip.scs[w].state;
    StateHasItems(pip, s);
    ShiftIs(s, Next(pip.ConfigAt(w)), Spot(z).1);
    var k :| 0 <= k < |Symbols(s)| && |Targets(s)| == |Symbols(s)| && Symbols(s)[k] == Next(pip.ConfigAt(w))
      && Targets(s)[k] == Spot(z).1;
    EntersFrom(z, s, k);
  }

  lemma FromIsPredecessor(pip: ParserInProgress, z: nat, s: nat) returns (w: nat)
    requires pip == TheMachine() && IsOnTheWay(z) && s in From(z)
    ensures IsTransitionPredecessor(pip, z, w)
    ensures pip.IsAddress(w) && pip.scs[w].state == s && pip.ConfigAt(w) == Spot(z).0 - 1 < 12
    ensures IsLong(s)
  {
    hide TheMachine, TheStates, Symbols, Targets, Next, Spot, From, IsOnTheWay, HasShift, Items, IsLong;
    SpotIs(pip, z);
    var k := Enters(z, s);
    var i :| 0 <= i < |Items(s)| && Items(s)[i] == Spot(z).0 - 1;
    w := TheTotalsAt(s) + i;
    AddressAt(pip, s, i, Spot(z).0 - 1, w);
    ShiftIs(s, Next(Spot(z).0 - 1), Spot(z).1);
    TransitionIs(pip, z, w);
    SpotIsBelow(z);
  }

  lemma SpotIsBelow(z: nat)
    ensures Spot(z).0 < 12
  {
  }

  function TheTotalsAt(s: nat): (n: nat)
    requires s < 9
    ensures |TheTotals()| == 10 && n == TheTotals()[s]
  {
    TheTotals()[s]
  }

  /** The states of the addresses that `z` comes from. */
  function Behind(z: nat): seq<nat> {
    if z == 27 then [7, 3, 0, 1, 2] else if z == 9 then [1, 0, 2, 7] else [2, 0, 1, 3, 7]
  }

  predicate IsRow(z: nat) {
    z == 27 || z == 9 || z == 11
  }

  /** Between `z` and the start of its production. */
  ghost predicate IsOnPath(pip: ParserInProgress, z: nat, y: nat) {
    && pip.IsAddress(y) && pip.scs[y].state in Behind(z)
    && (y == z || (z == 27 && y == 19) || (0 <= pip.ConfigAt(y) < 12 && pip.ConfigAt(y) % 3 == 0))
  }

  lemma StartHasNoPredecessor(pip: ParserInProgress, z: nat, w: nat)
    requires pip == TheMachine() && pip.IsAddress(z) && 0 <= pip.ConfigAt(z) < 12 && pip.ConfigAt(z) % 3 == 0
    ensures !IsTransitionPredecessor(pip, z, w)
  {
    hide TheMachine, TheConfigs;
    MachineHas(pip);
    StartHasNoDot(pip.cs, pip.ConfigAt(z));
  }

  lemma StartHasNoDot(cs: Configs, c: int)
    requires cs == TheConfigs() && 0 <= c < 12 && c % 3 == 0
    ensures c < |cs| && cs[c].dot == 0
  {
    assert c == 0 || c == 3 || c == 6 || c == 9;
  }

  lemma ComesFromPath(pip: ParserInProgress, z: nat, y: nat)
    requires pip == TheMachine() && IsRow(z) && ComesFrom(pip, z, y)
    ensures IsOnPath(pip, z, y)
  {
    hide TheMachine, IsTransitionPredecessor, IsOnPath;
    var path :| IsTransitionPath(pip, path, z, y);
    var found: set<int> := set a | 0 <= a < |pip.scs| && IsOnPath(pip, z, a);
    assert z in found by {
      RowIsOnPath(pip, z);
    }
    forall a: nat, b: nat | a in found && IsTransitionPredecessor(pip, a, b)
      ensures b in found
    {
      StaysOnPath(pip, z, a, b);
    }
    ClosedSetHoldsPath(pip, found, path, z, y);
  }

  lemma RowIsOnPath(pip: ParserInProgress, z: nat)
    requires pip == TheMachine() && IsRow(z)
    ensures z < |pip.scs| && IsOnPath(pip, z, z)
  {
    hide TheMachine;
    SpotIs(pip, z);
  }

  lemma StaysOnPath(pip: ParserInProgress, z: nat, a: nat, b: nat)
    requires pip == TheMachine() && IsRow(z) && IsOnPath(pip, z, a) && IsTransitionPredecessor(pip, a, b)
    ensures b < |pip.scs| && IsOnPath(pip, z, b)
  {
    hide TheMachine, TheTotals, Items;
    if a != z && !(z == 27 && a == 19) {
      StartHasNoPredecessor(pip, a, b);
    } else {
      PredecessorIsFrom(pip, a, b);
      if a == 27 {
        SpotIs(pip, 19);
        SevenIsAt4();
        AddressIsAt(pip, b, 3, 4, 7, 19);
      }
    }
  }

  lemma SevenIsAt4()
    ensures IsPlace(3, 4, 7) && TheTotals()[3] + 4 == 19
  {
  }

  lemma PathIsLong(z: nat, s: nat)
    requires IsRow(z) && s in Behind(z)
    ensures IsLong(s) && Expecting(s).2 in Originating(z)
  {
  }

  function Originating(z: nat): seq<nat> {
    if z == 9 then [4, 9, 11, 29] else [4, 9, 11, 17, 29]
  }

  /** The state an originator is in. */
  function StateOf(w: nat): nat {
    if w == 4 then 0 else if w == 9 then 1 else if w == 11 then 2 else if w == 17 then 3 else 7
  }

  /** For each originator, an address that `z` comes from. */
  lemma PathTo(pip: ParserInProgress, z: nat, w: nat) returns (y: nat)
    requires pip == TheMachine() && IsRow(z) && w in Originating(z)
    ensures ComesFrom(pip, z, y) && pip.IsAddress(y) && pip.ConfigAt(y) < 12
    ensures pip.scs[y].state == StateOf(w) && IsLong(StateOf(w)) && Expecting(StateOf(w)).2 == w
  {
    hide TheMachine, IsTransitionPredecessor, ComesFrom;
    SpotIs(pip, z);
    ComesFromItself(pip, z);
    var s := StateOf(w);
    if s == Spot(z).1 {
      y := z;
    } else if z == 27 {
      y := FromIsPredecessor(pip, 27, 3);
      SevenIsAt4();
      AddressIsAt(pip, y, 3, 4, 7, 19);
      ComesFromFurther(pip, 27, 27, 19);
      if s != 3 {
        y := FromIsPredecessor(pip, 19, s);
        ComesFromFurther(pip, 27, 19, y);
      }
    } else {
      y := FromIsPredecessor(pip, z, s);
      ComesFromFurther(pip, z, z, y);
    }
  }

  lemma OnPathIsOfS(pip: ParserInProgress, z: nat, y: nat)
    requires pip == TheMachine() && IsRow(z) && IsOnPath(pip, z, y)
    ensures pip.ConfigAt(y) < 12
  {
    hide TheMachine;
    SpotIs(pip, z);
    SpotIs(pip, 19);
  }

  lemma OriginatorIs(pip: ParserInProgress, z: nat, w: nat)
    requires pip == TheMachine() && IsRow(z)
    ensures IsOriginator(pip, z, w) <==> w in Originating(z)
  {
    hide TheMachine, IsTransitionPredecessor, IsImmediatePredecessor, ComesFrom, Originating, Expecting, IsLong, IsRow,
      StateOf, Behind;
    if IsOriginator(pip, z, w) {
      var y: nat :| ComesFrom(pip, z, y) && IsImmediatePredecessor(pip, y, w);
      ComesFromPath(pip, z, y);
      OnPathIsOfS(pip, z, y);
      ImmediateIs(pip, y, w);
      PathIsLong(z, pip.scs[y].state);
    }
    if w in Originating(z) {
      var y := PathTo(pip, z, w);
      ImmediateIs(pip, y, w);
    }
  }

  lemma RowIs(pip: ParserInProgress, og: ParserGraph, z: nat)
    requires pip == TheMachine() && IsRow(z) && IsOriginatorGraph(pip, og) && z < |og|
    ensures og[z] == Originating(z)
  {
    hide TheMachine, IsOriginator, IsRow;
    var row, told: seq<int> := og[z], Originating(z);
    forall w | w in Elements(row)
      ensures w in Elements(told)
    {
      OriginatorIs(pip, z, w);
      assert HasEdge(og, z, w);
    }
    forall w | w in Elements(told)
      ensures w in Elements(row)
    {
      OriginatorIs(pip, z, w);
      assert HasEdge(og, z, w);
    }
    IncreasingSeqsAreEqual(row, told);
  }

  // ----- nothing but the end can follow at an originator -----

  /** Nothing comes after the S that a config expects. */
  lemma NothingComesAfter(g: Grammar, cs: Configs, c: int)
    requires g == TheGrammar() && cs == TheConfigs() && 0 <= c < 14 && Next(c) == 5
    ensures c < |cs| && cs[c].production < |g.productions|
    ensures cs[c].dot + 1 == |g.productions[cs[c].production].rhs|
    ensures cs[c].production == g.AcceptProduction() <==> c == 12
  {
    assert c == 1 || c == 4 || c == 10 || c == 12;
  }

  lemma ExpectingHas(
      lg: LaneGraph, pip: ParserInProgress, og: ParserGraph, firstSets: seq<set<int>>, w: nat)
    requires pip == TheMachine() && IsSetUp(lg, pip, og, firstSets, 12) && pip.IsAddress(w)
    requires Next(pip.ConfigAt(w)) == 5
    ensures lg.Valid() && w < |lg.og| && lg.first[w] == {NULL}
    ensures IsAccepting(pip, w) <==> pip.ConfigAt(w) == 12
  {
    hide TheMachine, IsSetUp, Exact, FirstOfString, TheGrammar, TheConfigs, ParserInProgress.Valid, Next;
    MachineHas(pip);
    ConfigsCount();
    StateHasItems(pip, pip.scs[w].state);
    ItemsAreSorted(pip.states[pip.scs[w].state].configs, pip.scs[w].state);
    NothingComesAfter(pip.g, pip.cs, pip.ConfigAt(w));
    SetUpHasFirst(lg, pip, og, firstSets, 12, w);
    assert FollowString(pip, w) == [];
    NothingFollows(firstSets);
  }

  lemma {:induction false} NothingFollows(firstSets: seq<set<int>>)
    ensures FirstOfString([], firstSets) == {NULL}
  {
  }

  lemma OriginatorExpectsS(
      lg: LaneGraph, pip: ParserInProgress, og: ParserGraph, firstSets: seq<set<int>>, z: nat, w: nat)
    requires pip == TheMachine() && IsSetUp(lg, pip, og, firstSets, 12) && lg.Valid() && HasEdge(lg.og, z, w)
    ensures pip.IsAddress(w) && Next(pip.ConfigAt(w)) == 5
  {
    hide TheMachine, Exact, FirstOfString, TheGrammar, TheConfigs, Next, ComesFrom, ParserInProgress.Valid;
    assert IsOriginator(pip, z, w);
    var y: nat :| ComesFrom(pip, z, y) && IsImmediatePredecessor(pip, y, w);
    MachineHas(pip);
    ConfigsCount();
    StateHasItems(pip, pip.scs[w].state);
    ItemsAreSorted(pip.states[pip.scs[w].state].configs, pip.scs[w].state);
    NextIs(pip.g, pip.cs, pip.ConfigAt(w));
    LeftIs(pip.g, pip.cs, pip.ConfigAt(y));
    NextIsNotAccept(pip.ConfigAt(w));
  }

  lemma NextIsNotAccept(c: int)
    ensures Next(c) != 6
  {
  }

  /** The end mark is the only context of anything. */
  lemma ContextIsEnd(
      lg: LaneGraph, pip: ParserInProgress, og: ParserGraph, firstSets: seq<set<int>>, z: nat, t: int)
    requires pip == TheMachine() && IsSetUp(lg, pip, og, firstSets, 12) && lg.Valid() && InContext(lg, z, t)
    ensures t == END
  {
    hide TheMachine, IsSetUp, Reaches;
    var y: nat :| Reaches(lg, z, y) && y < |lg.og| && Contributes(lg, y, t);
    if t in lg.base[y] {
      BaseIsEnd(lg, pip, og, firstSets, y, t);
    } else {
      var x: nat :| HasEdge(lg.og, y, x) && t != NULL && t in lg.first[x];
      OriginatorExpectsS(lg, pip, og, firstSets, y, x);
      ExpectingHas(lg, pip, og, firstSets, x);
      assert false;
    }
  }

  lemma BaseIsEnd(
      lg: LaneGraph, pip: ParserInProgress, og: ParserGraph, firstSets: seq<set<int>>, y: nat, t: int)
    requires pip == TheMachine() && IsSetUp(lg, pip, og, firstSets, 12) && lg.Valid() && y < |lg.og| && t in lg.base[y]
    ensures t == END
  {
    hide TheMachine, IsSetUp, Exact, FirstOfString, TheConfigs, ParserInProgress.Valid, FollowString, IsAccepting;
    MachineHas(pip);
    GraphHasAddress(lg, pip, og, firstSets, y);
    SetUpHasFirst(lg, pip, og, firstSets, 12, y);
  }

  lemma GraphHasAddress(
      lg: LaneGraph, pip: ParserInProgress, og: ParserGraph, firstSets: seq<set<int>>, y: nat)
    requires IsSetUp(lg, pip, og, firstSets, 12) && y < |lg.og|
    ensures pip.IsAddress(y)
  {
  }

  // ----- the grammar has no conflict -----

  lemma ActionsOfState(pip: ParserInProgress, s: nat, k: nat)
    requires pip == TheMachine() && s < |pip.states| && k < |pip.states[s].actions|
    ensures s < 9 && |Symbols(s)| == |Targets(s)|
    ensures |pip.states[s].actions| == |Symbols(s)| + if IsReducing(s) then 1 else 0
    ensures k < |Symbols(s)| ==> pip.states[s].actions[k] == ActionInProgress(Shift(Targets(s)[k]), {Symbols(s)[k]})
    ensures k == |Symbols(s)| ==> pip.states[s].actions[k].action == Reduce(Reduced(s))
  {
    hide Symbols, Targets, Items, Reduced, IsReducing;
    assert pip.states == TheStates();
    TargetsMatch(s);
  }

  lemma EndIsNotShifted(s: nat)
    requires s < 9
    ensures END !in Symbols(s) && StrictlyIncreasing(Symbols(s))
  {
  }

  lemma DoNotClash(
      lg: LaneGraph, pip: ParserInProgress, og: ParserGraph, firstSets: seq<set<int>>, s: nat, k: nat, l: nat)
    requires lg.Valid() && s < |pip.states| && k < l < |pip.states[s].actions|
    requires pip == TheMachine() && IsSetUp(lg, pip, og, firstSets, 12)
    ensures !MayClash(lg, pip, s, pip.states[s].actions[k], pip.states[s].actions[l])
  {
    hide TheMachine, IsSetUp, Symbols, Targets, Items, Reduced, IsReducing, InContext;
    var a, b := pip.states[s].actions[k], pip.states[s].actions[l];
    ActionsOfState(pip, s, k);
    ActionsOfState(pip, s, l);
    EndIsNotShifted(s);
    if t :| IsPossible(lg, pip, s, a, t) && IsPossible(lg, pip, s, b, t) {
      if l == |Symbols(s)| {
        var z: nat :| IsReductionOf(pip, s, z, b) && InContext(lg, z, t);
        ContextIsEnd(lg, pip, og, firstSets, z, t);
      }
      assert false;
    }
  }

  lemma HasNoConflict(
      lg: LaneGraph, pip: ParserInProgress, og: ParserGraph, firstSets: seq<set<int>>)
    requires pip == TheMachine() && IsSetUp(lg, pip, og, firstSets, 12) && lg.Valid()
    ensures IsConflictFree(lg, pip)
  {
    hide TheMachine, IsSetUp, MayClash;
    forall s: nat, k: nat, l: nat | s < |pip.states| && k < l < |pip.states[s].actions|
      ensures !MayClash(lg, pip, s, pip.states[s].actions[k], pip.states[s].actions[l])
    {
      DoNotClash(lg, pip, og, firstSets, s, k, l);
    }
  }

  // ----- and lane tracing is given up -----

  function TheSnag(): Snag {
    Snag(27, 9, 11, 17, 29, 4)
  }

  lemma SnagExpects(pip: ParserInProgress, w: nat)
    requires pip == TheMachine() && (w == 4 || w == 9 || w == 11 || w == 17 || w == 29)
    ensures pip.IsAddress(w) && Next(pip.ConfigAt(w)) == 5 && (pip.ConfigAt(w) == 12 <==> w == 4)
  {
    hide TheMachine, Items, TheTotals, IsPlace;
    var s := StateOf(w);
    ExpectingIs(s);
    AddressAt(pip, s, Expecting(s).1, Expecting(s).0, w);
  }

  lemma LaneRowIs(
      lg: LaneGraph, pip: ParserInProgress, og: ParserGraph, firstSets: seq<set<int>>, z: nat)
    requires pip == TheMachine() && IsSetUp(lg, pip, og, firstSets, 12) && IsRow(z)
    ensures lg.Valid() && z < |lg.og| && lg.og[z] == Originating(z)
  {
    hide TheMachine, IsSetUp, IsOriginatorGraph, FollowString, FirstOfString, IsRow, Originating,
      ParserInProgress.Valid;
    RowIsOnPath(pip, z);
    SetUpHasFirst(lg, pip, og, firstSets, 12, z);
    RowIs(pip, lg.og, z);
  }

  lemma HasSnag(
      lg: LaneGraph, pip: ParserInProgress, og: ParserGraph, firstSets: seq<set<int>>)
    requires pip == TheMachine() && IsSetUp(lg, pip, og, firstSets, 12)
    ensures TheSnag().IsIn(lg)
  {
    hide TheMachine, IsSetUp, Next;
    forall z: nat | IsRow(z)
      ensures lg.Valid() && z < |lg.og| && lg.og[z] == Originating(z)
    {
      LaneRowIs(lg, pip, og, firstSets, z);
    }
    SnagHas(lg, pip, og, firstSets, 4);
    SnagHas(lg, pip, og, firstSets, 9);
    SnagHas(lg, pip, og, firstSets, 11);
    SnagHas(lg, pip, og, firstSets, 17);
    SnagHas(lg, pip, og, firstSets, 29);
    assert IsRow(27) && IsRow(9) && IsRow(11);
    var v: seq<nat> := [27, 9, 11, 17, 29, 4];
    assert AreDistinctAddresses(v);
  }

  lemma SnagHas(
      lg: LaneGraph, pip: ParserInProgress, og: ParserGraph, firstSets: seq<set<int>>, w: nat)
    requires pip == TheMachine() && IsSetUp(lg, pip, og, firstSets, 12)
    requires w == 4 || w == 9 || w == 11 || w == 17 || w == 29
    ensures lg.Valid() && w < |lg.og| && lg.first[w] == {NULL}
  {
    hide TheMachine, IsSetUp, Next;
    SnagExpects(pip, w);
    ExpectingHas(lg, pip, og, firstSets, w);
  }

  lemma SnagStarts(
      lg: LaneGraph, pip: ParserInProgress, og: ParserGraph, firstSets: seq<set<int>>,
      contexts: seq<set<int>>, complete: seq<bool>)
    requires pip == TheMachine() && IsSetUp(lg, pip, og, firstSets, 12)
    requires AreInitial(pip, contexts, complete) && |pip.scs| == |lg.og|
    ensures TheSnag().IsStart(lg, complete)
  {
    hide TheMachine, IsSetUp, IsAccepting, Snag.IsIn, Next;
    HasSnag(lg, pip, og, firstSets);
    forall w: nat | w == 4 || w == 9 || w == 11 || w == 17 || w == 29
      ensures w < |pip.scs| && complete[w] == (w == 4)
    {
      SnagExpects(pip, w);
      ExpectingHas(lg, pip, og, firstSets, w);
    }
    SpotIs(pip, 27);
    ReductionDoesNotAccept(pip, 27);
  }

  lemma ReductionDoesNotAccept(pip: ParserInProgress, z: nat)
    requires pip == TheMachine() && pip.IsAddress(z) && pip.ConfigAt(z) == 8
    ensures !IsAccepting(pip, z) && IsComplete(pip.g, pip.cs, 8)
  {
    hide MachineOf;
    MachineHas(pip);
  }

  // ----- only that run is made -----

  lemma OneActionIsAdequate(pip: ParserInProgress, s: nat)
    requires pip == TheMachine() && s < |pip.states| && !IsLong(s)
    ensures IsAdequate(pip.g, pip.states[s])
  {
    hide TheMachine;
    if pip.states[s].actions != [] {
      ActionsOfState(pip, s, 0);
    }
    assert |pip.states[s].actions| <= 1;
  }

  lemma StateNeedsContexts(pip: ParserInProgress)
    requires pip == TheMachine()
    ensures |pip.states| == 9 && !IsAdequate(pip.g, pip.states[7])
  {
    hide Terminals, Items;
    var actions := pip.states[7].actions;
    var shifts := ShiftsTo(Symbols(7), Targets(7));
    assert actions == AllInLr0Context(pip.g, shifts + [ActionInProgress(Reduce(2), {})]);
    assert actions[0].context == {0};
    assert actions[4].context == Terminals(pip.g);
    ZeroIsTerminal(pip.g);
    assert 0 in actions[0].context;
    assert Clash(pip.g, actions[0], actions[4]);
  }

  lemma ZeroIsTerminal(g: Grammar)
    requires g == TheGrammar()
    ensures g.IsTerminal(0) && 0 in Terminals(g)
  {
  }

  lemma CompleteInLong(g: Grammar, cs: Configs, s: nat, c: int)
    requires g == TheGrammar() && cs == TheConfigs() && s < 9 && IsLong(s) && c in Items(s) && IsComplete(g, cs, c)
    ensures s == 7 && c == 8
  {
  }

  lemma EightIsAt3()
    ensures IsPlace(7, 3, 8) && TheTotals()[7] + 3 == 27
  {
  }

  lemma OnlyOneToTrace(pip: ParserInProgress, adequate: seq<bool>, y: int)
    requires pip == TheMachine() && pip.Valid() && |adequate| == |pip.states|
    requires forall s :: 0 <= s < |adequate| ==> (adequate[s] <==> IsAdequate(pip.g, pip.states[s]))
    ensures IsToTrace(pip, adequate, y, |pip.states|, 0) <==> y == 27
  {
    hide TheMachine, TheGrammar, TheConfigs, IsComplete, ParserInProgress.Valid, IsAdequate, IsPlace, Items, IsLong,
      TheTotals;
    MachineHas(pip);
    EightIsAt3();
    if IsToTrace(pip, adequate, y, |pip.states|, 0) {
      AddressIs27(pip, adequate, y);
    }
    AddressAt(pip, 7, 3, 8, 27);
    StateNeedsContexts(pip);
    ReductionDoesNotAccept(pip, 27);
  }

  lemma AddressIs27(pip: ParserInProgress, adequate: seq<bool>, y: nat)
    requires pip == TheMachine() && pip.Valid() && |adequate| == |pip.states|
    requires forall s :: 0 <= s < |adequate| ==> (adequate[s] <==> IsAdequate(pip.g, pip.states[s]))
    requires IsToTrace(pip, adequate, y, |pip.states|, 0)
    ensures y == 27
  {
    hide TheMachine, TheGrammar, TheConfigs, IsComplete, IsAdequate, IsPlace, Items, IsLong, TheTotals;
    MachineHas(pip);
    EightIsAt3();
    var s := pip.scs[y].state;
    StateHasItems(pip, s);
    if !IsLong(s) {
      OneActionIsAdequate(pip, s);
    }
    CompleteInLong(pip.g, pip.cs, s, pip.ConfigAt(y));
    AddressIsAt(pip, y, 7, 3, 8, 27);
  }

  lemma RunIsGivenUp(
      lg: LaneGraph, pip: ParserInProgress, before: Found, outcome: Outcome, after: Found)
    requires pip.Valid() && TheSnag().IsStart(lg, before.complete) && |before.contexts| == |before.complete|
    requires IsRun(lg, pip, 27, before, outcome, after)
    ensures outcome.CheckFailed?
  {
    hide RunEndsWith, Snag.IsStart, ParserInProgress.Valid;
    RunIsAborted(TheSnag(), lg, SiblingTable(pip), before.contexts, before.complete);
  }

  /** The construction, from the machine on, gives up although the grammar has no conflict, and is LALR(1): the check in
      the lane tracing fails. */
  method GiveUpOnTheMachine(pip: ParserInProgress)
    returns (verdict: Verdict, out: ParserInProgress, ghost c: Construction)
    requires pip == TheMachine()
    ensures c.HasConflictFreeLanes(pip) && IsLalr1Machine(pip, c.start)
    ensures verdict == GaveUp(CheckFailed) && c.Justifies(verdict, out)
  {
    hide TheMachine, IsLalr1Machine, IsConflictFree, IsSetUp, IsLr0Machine, ParserInProgress.Valid, IsAdequate,
      IsToTrace, Construction.Justifies, IsRun, Snag.IsStart, AreInitial;
    IsTheMachine(pip);
    StateNeedsContexts(pip);
    verdict, out, c := FinishParser(pip, 12);
    HasNoConflict(c.lg, pip, c.og, c.firstSets);
    ConflictFreeMeansLalr1(c.lg, pip, c.og, c.firstSets, 12);
    forall y: int
      ensures IsToTrace(pip, c.adequate, y, |pip.states|, 0) <==> y == 27
    {
      OnlyOneToTrace(pip, c.adequate, y);
    }
    ghost var before, outcome, after := OnlyRun(c, verdict, out, 27);
    StartsAtSnag(c.lg, pip, c.og, c.firstSets, before);
    RunIsGivenUp(c.lg, pip, before, outcome, after);
  }

  lemma StartsAtSnag(
      lg: LaneGraph, pip: ParserInProgress, og: ParserGraph, firstSets: seq<set<int>>, before: Found)
    requires pip == TheMachine() && IsSetUp(lg, pip, og, firstSets, 12)
    requires AreInitial(pip, before.contexts, before.complete)
    ensures TheSnag().IsStart(lg, before.complete) && |before.contexts| == |before.complete|
  {
    hide TheMachine, Snag.IsStart;
    DescribesMachine(lg, pip, og, firstSets);
    SnagStarts(lg, pip, og, firstSets, before.contexts, before.complete);
  }
}
