/** A grammar with a nonterminal that derives no string of terminals, which the construction takes to derive nothing:
    the machine, written out, and a context that is no lookahead. */
module UselessGrammar {
  import opened Containers
  import opened Grammars
  import opened FirstSets
  import opened Lr0
  import opened Originators
  import opened Lanes
  import opened LaneTracing
  import opened Pushers
  import opened Snares
  import opened Lookaheads
  import opened Adequacy
  import opened Conflicts
  import opened Lalr
  import opened Sheets

  const B: int := 0
  const END: int := 1
  const N: nat := 4

  /** S ::= A N | b, A ::= b, N ::= N b; S is 2, A is 3, N is 4, and 5 accepts. */
  function TheGrammar(): Grammar {
    Grammar(6, 2, [Production(2, [3, N]), Production(2, [0]), Production(3, [0]), Production(N, [N, 0]),
                   Production(5, [2])])
  }

  function TheConfigs(): Configs {
    [Config(0, 0), Config(0, 1), Config(0, 2), Config(1, 0), Config(1, 1), Config(2, 0), Config(2, 1), Config(3, 0),
     Config(3, 1), Config(3, 2), Config(4, 0), Config(4, 1)]
  }

  function Items(s: nat): seq<int> {
    if s == 0 then [0, 3, 5, 10] else if s == 1 then [4, 6] else if s == 2 then [11] else if s == 3 then [1, 7]
    else if s == 4 then [2, 8] else [9]
  }

  function TheItems(): (items: seq<seq<int>>)
    ensures |items| == 6 && forall s :: 0 <= s < 6 ==> items[s] == Items(s)
  {
    seq(6, s requires 0 <= s < 6 => Items(s))
  }

  function KernelList(s: nat): seq<int> {
    if s == 0 then [10] else if s == 1 then [4, 6] else if s == 2 then [11] else if s == 3 then [1]
    else if s == 4 then [2, 8] else [9]
  }

  function Symbols(s: nat): seq<int> {
    if s == 0 then [0, 2, 3] else if s == 3 then [4] else if s == 4 then [0] else []
  }

  function Targets(s: nat): seq<nat> {
    if s == 0 then [1, 2, 3] else if s == 3 then [4] else if s == 4 then [5] else []
  }

  /** The productions that a state reduces. */
  function Reduced(s: nat): seq<nat> {
    if s == 1 then [1, 2] else if s == 2 then [4] else if s == 4 then [0] else if s == 5 then [3] else []
  }

  ghost function OnReduce(productions: seq<nat>): (actions: seq<ActionInProgress>)
    ensures |actions| == |productions|
    ensures forall k :: 0 <= k < |actions| ==> actions[k] == ActionInProgress(Reduce(productions[k]), {})
  {
    seq(|productions|, k requires 0 <= k < |productions| => ActionInProgress(Reduce(productions[k]), {}))
  }

  ghost function TheStates(): (states: seq<State>)
    ensures |states| == 6
    ensures forall s :: 0 <= s < 6 ==> states[s] == State(Items(s),
      AllInLr0Context(TheGrammar(), ShiftsTo(Symbols(s), Targets(s)) + OnReduce(Reduced(s))))
  {
    seq(6, s requires 0 <= s < 6 => State(Items(s),
      AllInLr0Context(TheGrammar(), ShiftsTo(Symbols(s), Targets(s)) + OnReduce(Reduced(s)))))
  }

  ghost function TheMachine(): ParserInProgress {
    MachineOf(TheGrammar(), TheConfigs(), TheStates())
  }

  // ----- it is the machine of the grammar -----

  lemma TheGrammarAccepts()
    ensures TheGrammar().HasAccept()
  {
  }

  lemma ConfigsOf(g: Grammar, cs: Configs, at: seq<nat>, p: int)
    requires g == TheGrammar() && cs == TheConfigs() && at == [0, 3, 5, 7, 10, 12]
    ensures HasConfigsAt(g, cs, at, p)
  {
    if p == 0 {
      assert |g.productions[0].rhs| == 2;
    } else if p == 1 {
      assert |g.productions[1].rhs| == 1;
    } else if p == 2 {
      assert |g.productions[2].rhs| == 1;
    } else if p == 3 {
      assert |g.productions[3].rhs| == 2;
    } else if p == 4 {
      assert |g.productions[4].rhs| == 1;
    }
  }

  lemma ConfigsAreAll(g: Grammar, cs: Configs)
    requires g == TheGrammar() && cs == TheConfigs()
    ensures AreConfigs(g, cs)
  {
    hide AreConfigs, MarksExactly;
    var at: seq<nat> := [0, 3, 5, 7, 10, 12];
    forall p
      ensures HasConfigsAt(g, cs, at, p)
    {
      ConfigsOf(g, cs, at, p);
    }
    ConfigsAre(g, cs, at);
  }

  function Next(c: int): int {
    if c == 3 || c == 5 || c == 8 then 0 else if c == 10 then 2 else if c == 0 then 3
    else if c == 1 || c == 7 then 4 else -1
  }

  function Spawn(c: int): seq<int> {
    if Next(c) == 2 then [0, 3] else if Next(c) == 3 then [5] else if Next(c) == 4 then [7] else []
  }

  function TheSheet(): (sh: Sheet)
    ensures |sh.next| == |sh.spawn| == 12
    ensures forall c :: 0 <= c < 12 ==> sh.next[c] == Next(c) && sh.spawn[c] == Spawn(c)
  {
    Sheet(seq(12, c requires 0 <= c < 12 => Next(c)), seq(12, c requires 0 <= c < 12 => Spawn(c)))
  }

  lemma NextIs(g: Grammar, cs: Configs, c: int)
    requires g == TheGrammar() && cs == TheConfigs() && 0 <= c < 12
    ensures Next(c) == SymbolAfterDot(g, cs, c) < 6
  {
  }

  lemma StartsAre(g: Grammar, cs: Configs, x: int, d: int)
    requires g == TheGrammar() && cs == TheConfigs() && 0 <= x < 6
    ensures d in [[], [], [0, 3], [5], [7], [10]][x] <==> Starts(g, cs, d, x)
  {
  }

  lemma TheSheetIs(g: Grammar, cs: Configs, sh: Sheet)
    requires g == TheGrammar() && cs == TheConfigs() && sh == TheSheet()
    ensures IsSheet(g, cs, sh)
  {
    hide IsSheet, SymbolAfterDot, Starts;
    var starts: seq<seq<int>> := [[], [], [0, 3], [5], [7], [10]];
    forall c | 0 <= c < 12
      ensures sh.next[c] == SymbolAfterDot(g, cs, c) < 6
    {
      NextIs(g, cs, c);
    }
    forall x, d | 0 <= x < 6
      ensures d in starts[x] <==> Starts(g, cs, d, x)
    {
      StartsAre(g, cs, x, d);
    }
    SheetIs(g, cs, sh, starts);
  }

  function Order(s: nat): seq<int> {
    if s == 0 then [10, 0, 3, 5] else KernelList(s) + Spawn(KernelList(s)[0])
  }

  lemma OrderOf(sh: Sheet, order: seq<int>, kernel: set<int>, t: nat)
    requires sh == TheSheet() && t < 6 && order == Order(t) && kernel == Elements(KernelList(t))
    ensures IsOrder(sh, kernel, order) && kernel != {}
  {
    hide IsOrder;
    assert KernelList(t)[0] in kernel;
    if t == 0 {
      StartOrder(sh, order, kernel);
    } else if t == 3 {
      OrderInThree(sh, order, kernel);
    } else {
      OrderIsKernel(sh, order, kernel, t);
    }
  }

  lemma OrderInThree(sh: Sheet, order: seq<int>, kernel: set<int>)
    requires sh == TheSheet() && order == [1, 7] && kernel == Elements([1])
    ensures IsOrder(sh, kernel, order)
  {
    assert order[1] in sh.spawn[order[0]];
    assert IsSpawned(sh, order, 1);
    assert order[0] in kernel;
  }

  lemma OrderIsKernel(sh: Sheet, order: seq<int>, kernel: set<int>, t: nat)
    requires sh == TheSheet() && t < 6 && t != 0 && t != 3 && order == Order(t) && kernel == Elements(KernelList(t))
    ensures IsOrder(sh, kernel, order)
  {
    hide IsSpawned, TheSheet;
    assert order == KernelList(t);
    assert forall i :: 0 <= i < |order| ==> sh.spawn[order[i]] == [] && order[i] in kernel;
  }

  lemma StartOrder(sh: Sheet, order: seq<int>, kernel: set<int>)
    requires sh == TheSheet() && order == [10, 0, 3, 5] && kernel == Elements([10])
    ensures IsOrder(sh, kernel, order)
  {
    hide IsSpawned;
    forall k: nat | 1 <= k < 4
      ensures IsSpawned(sh, order, k)
    {
      SpawnedFrom(sh, order, k, if k <= 2 then 0 else 1);
    }
    assert order[0] in kernel;
  }

  lemma OrderHasItems(t: nat, c: int)
    requires t < 6
    ensures c in Order(t) <==> c in Items(t)
  {
  }

  /** Transition `k` of state `s` moves over what the kernel of its target says. */
  lemma MovesOn(s: nat, k: nat, c: int)
    requires s < 6 && k < |Symbols(s)|
    ensures k < |Targets(s)| && Targets(s)[k] < 6 && 0 <= Symbols(s)[k]
    ensures c in Items(s) ==> 0 <= c < 12 && (Next(c) == Symbols(s)[k] ==> c + 1 in KernelList(Targets(s)[k]))
    ensures c in KernelList(Targets(s)[k]) ==> c - 1 in Items(s) && Next(c - 1) == Symbols(s)[k]
  {
  }

  lemma TheGotos(g: Grammar, cs: Configs, sh: Sheet, items: seq<seq<int>>, s: nat, k: nat)
    requires IsSheet(g, cs, sh) && |cs| == 12 && sh == TheSheet() && items == TheItems()
    requires s < 6 && k < |Symbols(s)|
    ensures k < |Targets(s)| && Targets(s)[k] < 6 && 0 <= Symbols(s)[k]
    ensures IsGoto(g, cs, Elements(items[s]), Symbols(s)[k], Elements(items[Targets(s)[k]]))
  {
    hide IsSheet, IsGoto, IsOrder, Symbols, Targets, Order, KernelList, Items, Next, Spawn;
    MovesOn(s, k, 0);
    var x, t := Symbols(s)[k], Targets(s)[k];
    var kernel := Elements(KernelList(t));
    OrderOf(sh, Order(t), kernel, t);
    assert items[s] == Items(s);
    forall c | c in items[s]
      ensures 0 <= c < 12 && (sh.next[c] == x ==> c + 1 in kernel)
    {
      MovesOn(s, k, c);
    }
    forall c | c in kernel
      ensures c - 1 in items[s] && sh.next[c - 1] == x
    {
      MovesOn(s, k, c);
      MovesOn(s, k, c - 1);
    }
    forall c
      ensures c in Order(t) <==> c in items[t]
    {
      OrderHasItems(t, c);
    }
    GotoIs(g, cs, sh, items[s], x, kernel, Order(t), items[t]);
  }

  /** State `i` is reached from an earlier one. */
  function ParentOf(i: nat): nat {
    if i <= 3 then 0 else i - 1
  }

  function KeyOf(i: nat): nat {
    if 1 <= i <= 3 then i - 1 else 0
  }

  lemma HasTheParent(g: Grammar, cs: Configs, sh: Sheet, items: seq<seq<int>>, i: nat)
    requires IsSheet(g, cs, sh) && |cs| == 12 && sh == TheSheet() && items == TheItems() && 0 < i < 6
    ensures HasParent(g, cs, items, i)
  {
    hide IsSheet, IsGoto, TheSheet, TheItems;
    var s, k := ParentOf(i), KeyOf(i);
    assert k < |Symbols(s)| && Targets(s)[k] == i && s < i;
    TheGotos(g, cs, sh, items, s, k);
  }

  lemma ItemsAreSorted(items: seq<int>, i: nat)
    requires i < 6 && items == Items(i)
    ensures StrictlyIncreasing(items) && forall k :: 0 <= k < |items| ==> 0 <= items[k] < 12
  {
  }

  lemma ItemsDiffer(i: nat, j: nat)
    requires i < j < 6
    ensures Items(i) != Items(j)
  {
    assert Items(i)[0] != Items(j)[0];
  }

  lemma IsTheCollection(g: Grammar, cs: Configs, sh: Sheet, items: seq<seq<int>>)
    requires IsSheet(g, cs, sh) && |cs| == 12 && sh == TheSheet() && items == TheItems()
    ensures IsCollection(g, cs, 10, items)
  {
    hide IsSheet, IsClosure, HasParent, TheSheet, TheItems, IsOrder;
    assert Elements(KernelList(0)) == {10};
    OrderOf(sh, Order(0), {10}, 0);
    forall c
      ensures c in Order(0) <==> c in items[0]
    {
      OrderHasItems(0, c);
    }
    ClosureIs(g, cs, sh, {10}, Order(0), items[0]);
    forall i: nat | i < 6
      ensures StrictlyIncreasing(items[i]) && AreIndices(cs, items[i])
    {
      ItemsAreSorted(items[i], i);
    }
    forall i: nat | 0 < i < 6
      ensures HasParent(g, cs, items, i)
    {
      HasTheParent(g, cs, sh, items, i);
    }
    forall i: nat, j: nat | i < j < 6
      ensures items[i] != items[j]
    {
      ItemsDiffer(i, j);
    }
  }

  lemma {:induction false} ReductionsOne(g: Grammar, cs: Configs, c: int)
    ensures Reductions(g, cs, [c]) ==
      if IsComplete(g, cs, c) then [ActionInProgress(Reduce(cs[c].production), {})] else []
  {
    assert [c][..0] == [];
  }

  lemma {:induction false} ReductionsTwo(g: Grammar, cs: Configs, c: int, d: int)
    ensures Reductions(g, cs, [c, d]) == Reductions(g, cs, [c])
      + if IsComplete(g, cs, d) then [ActionInProgress(Reduce(cs[d].production), {})] else []
  {
    assert [c, d][..1] == [c];
  }

  lemma {:induction false} TheReductions(g: Grammar, cs: Configs, sh: Sheet, s: nat)
    requires IsSheet(g, cs, sh) && g == TheGrammar() && cs == TheConfigs() && sh == TheSheet() && s < 6
    ensures Reductions(g, cs, Items(s)) == OnReduce(Reduced(s))
  {
    hide IsSheet, Reductions, IsComplete;
    if s == 0 || s == 3 {
      NoReductions(g, cs, sh, Items(s));
    } else {
      CompleteAre(g, cs);
      ReductionsOne(g, cs, Items(s)[0]);
      if s == 1 {
        ReductionsTwo(g, cs, 4, 6);
      } else if s == 4 {
        ReductionsTwo(g, cs, 2, 8);
      } else {
        assert Items(s) == [Items(s)[0]];
      }
    }
  }

  lemma CompleteAre(g: Grammar, cs: Configs)
    requires g == TheGrammar() && cs == TheConfigs()
    ensures IsComplete(g, cs, 4) && cs[4].production == 1 && IsComplete(g, cs, 6) && cs[6].production == 2
    ensures IsComplete(g, cs, 11) && cs[11].production == 4 && IsComplete(g, cs, 2) && cs[2].production == 0
    ensures IsComplete(g, cs, 9) && cs[9].production == 3 && !IsComplete(g, cs, 8)
  {
  }

  lemma ActionsOf(g: Grammar, cs: Configs, sh: Sheet, items: seq<seq<int>>, s: nat, state: State)
    requires IsSheet(g, cs, sh) && g == TheGrammar() && cs == TheConfigs() && sh == TheSheet() && items == TheItems()
    requires s < 6 && state == TheStates()[s]
    ensures HasLr0Actions(g, cs, items, state)
  {
    hide IsSheet, IsGoto, Reductions, HasLr0Actions, AllInLr0Context, TheGrammar, TheConfigs;
    var symbols, targets := Symbols(s), Targets(s);
    TargetsMatch(s);
    ConfigsCount();
    forall k: nat | k < |symbols|
      ensures targets[k] < |items| && IsGoto(g, cs, Elements(items[s]), symbols[k], Elements(items[targets[k]]))
    {
      TheGotos(g, cs, sh, items, s, k);
    }
    ItemsAreSorted(items[s], s);
    TheReductions(g, cs, sh, s);
    ActionsAre(g, cs, sh, items, s, state, symbols, targets);
  }

  lemma ConfigsCount()
    ensures |TheConfigs()| == 12
  {
  }

  lemma TargetsMatch(s: nat)
    requires s < 6
    ensures |Symbols(s)| == |Targets(s)| && StrictlyIncreasing(Symbols(s))
    ensures forall c :: c in Items(s) && 0 <= Next(c) ==> Next(c) in Symbols(s)
  {
  }

  lemma IsTheMachine(pip: ParserInProgress)
    requires pip == TheMachine()
    ensures pip.Valid() && IsLr0Machine(pip.g, pip.cs, 10, pip.states)
  {
    hide AreConfigs, AddressesMatch, IsCollection, HasLr0Actions, Grammar.HasAccept, IsSheet, Items, TheSheet;
    var g, cs, sh := pip.g, pip.cs, TheSheet();
    TheGrammarAccepts();
    ConfigsAreAll(g, cs);
    AddressesAre(pip.states);
    TheSheetIs(g, cs, sh);
    var items := TheItems();
    assert ItemsOf(pip.states) == items;
    IsTheCollection(g, cs, sh, items);
    assert Starts(g, cs, 10, 5);
    forall s: nat | s < 6
      ensures StrictlyIncreasing(pip.states[s].configs) && AreIndices(cs, pip.states[s].configs)
      ensures HasLr0Actions(g, cs, items, pip.states[s])
    {
      ItemsAreSorted(items[s], s);
      ActionsOf(g, cs, sh, items, s, pip.states[s]);
    }
  }

  // ----- N derives neither a terminal first nor nothing -----

  lemma {:induction false} NLeadsItself(g: Grammar, tree: Tree)
    requires g == TheGrammar() && IsDerivation(g, tree) && Root(g, tree) == N
    ensures Yield(tree) != [] && Yield(tree)[0] == N
    decreases tree
  {
    match tree
    case Open(_) =>
    case Node(p, children) =>
      assert p == 3;
      NLeadsItself(g, children[0]);
  }

  lemma NothingLeadsN(g: Grammar, x: int)
    requires g == TheGrammar()
    ensures !InFirst(g, [N], x)
  {
    if InFirst(g, [N], x) {
      var tree := DerivationOfSymbol(g, N, x);
      NLeadsItself(g, tree);
      assert false;
    }
  }

  // ----- A ::= b . is of no use in LR(1), so the grammar is LALR(1) -----

  /** The productions of S and S' are only before the end, and A is never expanded. */
  ghost predicate IsFine(pip: ParserInProgress, item: Item) {
    && pip.IsAddress(item.address) && 0 <= pip.ConfigAt(item.address) < 12
    && pip.ConfigAt(item.address) != 5 && pip.ConfigAt(item.address) != 6
    && (pip.ConfigAt(item.address) < 5 || 10 <= pip.ConfigAt(item.address) ==> item.lookahead == END)
  }

  lemma MachineHas(pip: ParserInProgress)
    requires pip == TheMachine()
    ensures pip.g == TheGrammar() && pip.cs == TheConfigs() && pip.states == TheStates()
    ensures pip == MachineOf(pip.g, pip.cs, pip.states)
  {
  }

  lemma ConfigIsSmall(pip: ParserInProgress, z: nat)
    requires pip == TheMachine() && pip.IsAddress(z)
    ensures pip.scs[z].state < 6 && pip.states[pip.scs[z].state].configs == Items(pip.scs[z].state)
    ensures 0 <= pip.ConfigAt(z) < 12 == |pip.cs| && pip.ConfigAt(z) in Items(pip.scs[z].state)
  {
    hide Items, MachineOf;
    MachineHas(pip);
    ItemsAreSorted(pip.states[pip.scs[z].state].configs, pip.scs[z].state);
  }

  lemma AdvanceIs(cs: Configs, c: int, d: int)
    requires cs == TheConfigs() && 0 <= c < 12 && 0 <= d < 12
    requires cs[d] == Config(cs[c].production, cs[c].dot + 1)
    ensures d == c + 1 && d != 0 && d != 3 && d != 5 && d != 7 && d != 10
  {
    assert cs[d].dot > 0;
    assert cs[d].production == if d < 3 then 0 else if d < 5 then 1 else if d < 7 then 2 else if d < 10 then 3 else 4;
    assert cs[c].production == if c < 3 then 0 else if c < 5 then 1 else if c < 7 then 2 else if c < 10 then 3 else 4;
  }

  function Left(c: int): int {
    if c < 5 then 2 else if c < 7 then 3 else if c < 10 then 4 else 5
  }

  lemma LeftIs(g: Grammar, cs: Configs, c: int)
    requires g == TheGrammar() && cs == TheConfigs() && 0 <= c < 12
    ensures cs[c].production < |g.productions|
    ensures Lhs(g, cs, c) == Left(c)
  {
    assert cs[c].production == if c < 3 then 0 else if c < 5 then 1 else if c < 7 then 2 else if c < 10 then 3 else 4;
  }

  lemma TransitionIsFine(pip: ParserInProgress, a: Item, b: Item)
    requires pip == TheMachine() && IsFine(pip, a)
    requires IsTransitionPredecessor(pip, b.address, a.address) && b.lookahead == a.lookahead
    ensures IsFine(pip, b)
  {
    hide TheMachine, TheConfigs, HasShift;
    MachineHas(pip);
    ConfigIsSmall(pip, a.address);
    ConfigIsSmall(pip, b.address);
    AdvanceIs(pip.cs, pip.ConfigAt(a.address), pip.ConfigAt(b.address));
  }

  lemma FollowIs(pip: ParserInProgress, w: nat)
    requires pip == TheMachine() && pip.IsAddress(w) && 0 <= pip.ConfigAt(w) < |pip.cs|
    requires pip.cs[pip.ConfigAt(w)].production < |pip.g.productions|
    ensures pip.ConfigAt(w) == 0 ==> FollowString(pip, w) == [N]
    ensures pip.ConfigAt(w) == 1 || pip.ConfigAt(w) == 10 ==> FollowString(pip, w) == []
    ensures pip.ConfigAt(w) == 7 ==> FollowString(pip, w) == [0]
    ensures IsAccepting(pip, w) <==> 10 <= pip.ConfigAt(w)
  {
    hide MachineOf, TheStates;
    MachineHas(pip);
    var c := pip.ConfigAt(w);
    LeftIs(pip.g, pip.cs, c);
    assert pip.cs[c].production ==
      if c < 3 then 0 else if c < 5 then 1 else if c < 7 then 2 else if c < 10 then 3 else 4;
    assert TheGrammar().productions[0].rhs[1..] == [N] && TheGrammar().productions[3].rhs[1..] == [0];
  }

  lemma NextOfStart(c: int)
    ensures Next(c) == 2 ==> c == 10
    ensures Next(c) == 3 ==> c == 0
    ensures Next(c) == 4 ==> c == 1 || c == 7
    ensures Next(c) != 5
  {
  }

  lemma ExpansionIsFine(pip: ParserInProgress, a: Item, b: Item)
    requires pip == TheMachine() && pip.Valid() && IsFine(pip, a) && IsImmediatePredecessor(pip, b.address, a.address)
    requires FollowsWith(pip, a.address, a.lookahead, b.lookahead)
    ensures IsFine(pip, b)
  {
    hide TheMachine, TheConfigs, TheGrammar, Next, SymbolAfterDot, ParserInProgress.Valid;
    MachineHas(pip);
    ConfigIsSmall(pip, a.address);
    ConfigIsSmall(pip, b.address);
    LeftIs(pip.g, pip.cs, pip.ConfigAt(a.address));
    LeftIs(pip.g, pip.cs, pip.ConfigAt(b.address));
    NextIs(pip.g, pip.cs, pip.ConfigAt(a.address));
    NextOfStart(pip.ConfigAt(a.address));
    FollowIs(pip, a.address);
    if pip.ConfigAt(a.address) == 0 {
      NothingLeadsN(pip.g, b.lookahead);
      NothingLeadsN(pip.g, FIRST_NULL);
    } else if pip.ConfigAt(a.address) == 10 && b.lookahead != FIRST_NULL {
      NothingIsNoTerminal(pip.g, b.lookahead);
    }
  }

  lemma RunIsFine(pip: ParserInProgress, run: seq<Item>)
    requires pip == TheMachine() && pip.Valid() && IsItemRun(pip, 10, run)
    ensures IsFine(pip, run[|run| - 1])
    decreases |run|
  {
    hide TheMachine, ParserInProgress.Valid, IsFine, IsTransitionPredecessor, IsImmediatePredecessor, FollowsWith;
    if |run| == 1 {
      StartIsFine(pip, run[0]);
    } else {
      LastRunStep(pip, 10, run);
      RunIsFine(pip, run[..|run| - 1]);
      var a, b := run[|run| - 2], run[|run| - 1];
      if IsTransitionPredecessor(pip, b.address, a.address) && b.lookahead == a.lookahead {
        TransitionIsFine(pip, a, b);
      } else {
        ExpansionIsFine(pip, a, b);
      }
    }
  }

  lemma StartIsFine(pip: ParserInProgress, item: Item)
    requires pip == TheMachine() && IsStartItem(pip, 10, item)
    ensures IsFine(pip, item)
  {
    hide MachineOf;
    MachineHas(pip);
  }

  lemma ItemIsFine(pip: ParserInProgress, item: Item)
    requires pip == TheMachine() && pip.Valid() && IsLr1Item(pip, 10, item)
    ensures IsFine(pip, item)
  {
    hide TheMachine, ParserInProgress.Valid, IsFine;
    var run :| IsItemRun(pip, 10, run) && run[|run| - 1] == item;
    RunIsFine(pip, run);
  }

  lemma ActionsOfState(pip: ParserInProgress, s: nat, k: nat)
    requires pip == TheMachine() && s < |pip.states| && k < |pip.states[s].actions|
    ensures s < 6 && |Symbols(s)| == |Targets(s)| && |pip.states[s].actions| == |Symbols(s)| + |Reduced(s)|
    ensures k < |Symbols(s)| ==> pip.states[s].actions[k] == ActionInProgress(Shift(Targets(s)[k]), {Symbols(s)[k]})
    ensures |Symbols(s)| <= k ==> pip.states[s].actions[k].action == Reduce(Reduced(s)[k - |Symbols(s)|])
  {
    hide Symbols, Targets, Items, Reduced;
    assert pip.states == TheStates();
    TargetsMatch(s);
  }

  lemma TwoActions(s: nat, k: nat, l: nat)
    requires s < 6 && k < l < |Symbols(s)| + |Reduced(s)|
    ensures StrictlyIncreasing(Symbols(s))
    ensures |Symbols(s)| <= l ==> (s == 1 && k == 0 && l == 1) || (s == 4 && k == 0 && l == 1)
    ensures Symbols(1) == [] && Reduced(1) == [1, 2] && Symbols(4) == [0] && Reduced(4) == [0]
  {
  }

  lemma ReducedBy(pip: ParserInProgress, s: nat, a: ActionInProgress, t: int)
    requires pip == TheMachine() && pip.Valid() && a.action.Reduce? && IsPossibleByItems(pip, 10, s, a, t)
    ensures a.action != Reduce(2) && (a.action == Reduce(0) ==> t == END)
  {
    hide TheMachine, TheConfigs, ParserInProgress.Valid, IsLr1Item;
    var z: nat :| IsReductionOf(pip, s, z, a) && IsLr1Item(pip, 10, Item(z, t));
    ItemIsFine(pip, Item(z, t));
    MachineHas(pip);
    ProductionsOf(pip.cs, pip.ConfigAt(z));
  }

  lemma ProductionsOf(cs: Configs, c: int)
    requires cs == TheConfigs() && 0 <= c < 12
    ensures cs[c].production == if c < 3 then 0 else if c < 5 then 1 else if c < 7 then 2 else if c < 10 then 3 else 4
  {
  }

  lemma AllAreDistinguished(pip: ParserInProgress, s: nat, k: nat, l: nat, t: int)
    requires pip == TheMachine() && pip.Valid() && s < |pip.states| && k < l < |pip.states[s].actions|
    ensures AreDistinguished(pip, 10, s, k, l, t)
  {
    hide TheMachine, ParserInProgress.Valid, Symbols, Targets, Reduced, IsReductionOf, IsLr1Item;
    ActionsOfState(pip, s, k);
    ActionsOfState(pip, s, l);
    TwoActions(s, k, l);
    var b := pip.states[s].actions[l];
    if |Symbols(s)| <= l && IsPossibleByItems(pip, 10, s, b, t) {
      ReducedBy(pip, s, b, t);
    }
  }

  /** The grammar is LALR(1). */
  lemma IsLalr1(pip: ParserInProgress)
    requires pip == TheMachine()
    ensures pip.Valid() && IsLr0Machine(pip.g, pip.cs, 10, pip.states) && IsLalr1Machine(pip, 10)
  {
    hide TheMachine, ParserInProgress.Valid, IsLr0Machine, AreDistinguished;
    IsTheMachine(pip);
    forall s: nat, k, l, t | s < |pip.states| && 0 <= k < l < |pip.states[s].actions|
      ensures AreDistinguished(pip, 10, s, k, l, t)
    {
      AllAreDistinguished(pip, s, k, l, t);
    }
  }

  // ----- and has a context that is no lookahead -----

  function TheTotals(): seq<nat> {
    [0, 4, 6, 7, 9, 11, 12]
  }

  lemma TotalsAreRight(pip: ParserInProgress)
    requires pip == TheMachine()
    ensures AreTotals(pip.states, TheTotals())
  {
    hide MachineOf;
    MachineHas(pip);
  }

  /** A ::= b . and S ::= b . after b, and before it A ::= . b, S ::= . b, S ::= . A N and S' ::= . S. */
  lemma SomeAddresses(pip: ParserInProgress)
    requires pip == TheMachine()
    ensures pip.IsAddress(5) && pip.scs[5].state == 1 && pip.ConfigAt(5) == 6
    ensures pip.IsAddress(4) && pip.scs[4].state == 1 && pip.ConfigAt(4) == 4
    ensures pip.IsAddress(2) && pip.scs[2].state == 0 && pip.ConfigAt(2) == 5
    ensures pip.IsAddress(1) && pip.scs[1].state == 0 && pip.ConfigAt(1) == 3
    ensures pip.IsAddress(0) && pip.scs[0].state == 0 && pip.ConfigAt(0) == 0
    ensures pip.IsAddress(3) && pip.scs[3].state == 0 && pip.ConfigAt(3) == 10
  {
    hide MachineOf;
    TotalsAreRight(pip);
    MachineHas(pip);
    var z := AddressIs(pip, TheTotals(), 1, 1);
    z := AddressIs(pip, TheTotals(), 1, 0);
    z := AddressIs(pip, TheTotals(), 0, 2);
    z := AddressIs(pip, TheTotals(), 0, 1);
    z := AddressIs(pip, TheTotals(), 0, 0);
    z := AddressIs(pip, TheTotals(), 0, 3);
  }

  lemma ShiftsB()
    ensures HasShift(TheStates()[0], 0, 1)
  {
    assert TheStates()[0].actions[0] == ActionInProgress(Shift(1), {0});
  }

  /** The originators on the way: of A ::= b . there is S ::= . A N, and of that and of S ::= b . there is
      S' ::= . S. */
  lemma SomeOriginators(pip: ParserInProgress)
    requires pip == TheMachine()
    ensures IsOriginator(pip, 5, 0) && IsOriginator(pip, 0, 3) && IsOriginator(pip, 4, 3)
  {
    hide MachineOf, TheStates, HasShift;
    SomeAddresses(pip);
    MachineHas(pip);
    ShiftsB();
    assert pip.cs[5] == Config(2, 0) && pip.cs[6] == Config(2, 1);
    assert pip.cs[3] == Config(1, 0) && pip.cs[4] == Config(1, 1);
    assert IsTransitionPredecessor(pip, 5, 2) && IsTransitionPredecessor(pip, 4, 1);
    ComesFromItself(pip, 5);
    ComesFromFurther(pip, 5, 5, 2);
    ComesFromItself(pip, 4);
    ComesFromFurther(pip, 4, 4, 1);
    ComesFromItself(pip, 0);
    assert IsImmediatePredecessor(pip, 2, 0) && IsImmediatePredecessor(pip, 1, 3) && IsImmediatePredecessor(pip, 0, 3);
  }

  lemma SetUpHasEdge(
      lg: LaneGraph, pip: ParserInProgress, og: ParserGraph, firstSets: seq<set<int>>, z: nat, w: nat)
    requires IsSetUp(lg, pip, og, firstSets, 10) && lg.Valid() && IsOriginator(pip, z, w) && pip.IsAddress(z)
    ensures HasEdge(lg.og, z, w)
  {
  }

  /** The FIRST set of N is empty. */
  lemma {:induction false} NHasNoFirst(g: Grammar, firstSets: seq<set<int>>)
    requires g == TheGrammar() && g.Valid() && Exact(g, firstSets)
    ensures FirstOfString([N], firstSets) == {}
  {
    forall x
      ensures x !in FirstOfString([N], firstSets)
    {
      FirstOfStringIsExact(g, firstSets, [N], x);
      NothingLeadsN(g, x);
    }
  }

  lemma FirstsAre(
      lg: LaneGraph, pip: ParserInProgress, og: ParserGraph, firstSets: seq<set<int>>, w: nat)
    requires pip == TheMachine() && IsSetUp(lg, pip, og, firstSets, 10) && pip.IsAddress(w)
    ensures lg.Valid() && w < |lg.og|
    ensures pip.ConfigAt(w) == 0 ==> lg.first[w] == {}
    ensures pip.ConfigAt(w) == 7 ==> lg.first[w] == {0}
    ensures pip.ConfigAt(w) == 1 || pip.ConfigAt(w) == 10 ==> lg.first[w] == {NULL}
    ensures lg.base[w] == if 10 <= pip.ConfigAt(w) then {END} else {}
  {
    hide TheMachine, TheConfigs, IsSetUp, Exact, FirstOfString, FollowString, ParserInProgress.Valid, IsAccepting;
    MachineHas(pip);
    ConfigIsSmall(pip, w);
    LeftIs(pip.g, pip.cs, pip.ConfigAt(w));
    FollowIs(pip, w);
    SetUpHasFirst(lg, pip, og, firstSets, 10, w);
    NHasNoFirst(pip.g, firstSets);
    ZeroIsTerminal(pip.g);
    TerminalFollows(pip.g, firstSets, 0);
    NothingFollows(firstSets);
  }

  lemma ZeroIsTerminal(g: Grammar)
    requires g == TheGrammar()
    ensures g.IsTerminal(0) && g.IsTerminal(END) && g.EndTerminal() == END
  {
  }

  lemma {:induction false} NothingFollows(firstSets: seq<set<int>>)
    ensures FirstOfString([], firstSets) == {NULL}
  {
  }

  /** The end mark is a context of A ::= b ., which no string of terminals comes after. */
  lemma ContextIsNoLookahead(
      lg: LaneGraph, pip: ParserInProgress, og: ParserGraph, firstSets: seq<set<int>>)
    requires pip == TheMachine() && IsSetUp(lg, pip, og, firstSets, 10)
    ensures pip.Valid() && lg.Valid() && InContext(lg, 5, END) && InContext(lg, 4, END)
    ensures forall t :: !IsLr1Item(pip, 10, Item(5, t))
    ensures !OriginatorsHaveFirst(lg)
  {
    hide TheMachine, IsSetUp, IsOriginator, ParserInProgress.Valid, IsLr1Item;
    IsTheMachine(pip);
    SomeAddresses(pip);
    SomeOriginators(pip);
    FirstsAre(lg, pip, og, firstSets, 0);
    FirstsAre(lg, pip, og, firstSets, 3);
    SetUpHasEdge(lg, pip, og, firstSets, 5, 0);
    SetUpHasEdge(lg, pip, og, firstSets, 0, 3);
    SetUpHasEdge(lg, pip, og, firstSets, 4, 3);
    EndReaches(lg, pip, og, firstSets);
    forall t
      ensures !IsLr1Item(pip, 10, Item(5, t))
    {
      if IsLr1Item(pip, 10, Item(5, t)) {
        ItemIsFine(pip, Item(5, t));
      }
    }
  }

  lemma EndReaches(
      lg: LaneGraph, pip: ParserInProgress, og: ParserGraph, firstSets: seq<set<int>>)
    requires lg.Valid() && 5 < |lg.og| && HasEdge(lg.og, 5, 0) && HasEdge(lg.og, 0, 3) && HasEdge(lg.og, 4, 3)
    requires lg.first[0] == {} && lg.first[3] == {NULL} && lg.base[3] == {END}
    ensures InContext(lg, 5, END) && InContext(lg, 4, END)
  {
    ReachesItself(lg, 5);
    ReachesFurther(lg, 5, 5, 0);
    ReachesFurther(lg, 5, 0, 3);
    ReachesItself(lg, 4);
    ReachesFurther(lg, 4, 4, 3);
    assert Contributes(lg, 3, END);
  }

  // ----- so the construction refuses the grammar -----

  /** An address leads on only to addresses of a nonterminal nearer to the start. */
  function Rank(c: int): nat {
    if 10 <= c then 0 else if c < 5 then 1 else 2
  }

  lemma OriginatorIsAbove(
      lg: LaneGraph, pip: ParserInProgress, og: ParserGraph, firstSets: seq<set<int>>, z: nat, w: nat)
    returns (y: nat)
    requires IsSetUp(lg, pip, og, firstSets, 10) && lg.Valid() && HasEdge(lg.og, z, w)
    ensures pip.Valid() && ComesFrom(pip, z, y) && IsImmediatePredecessor(pip, y, w)
    ensures pip.IsAddress(z) && pip.IsAddress(y) && pip.IsAddress(w)
  {
    hide ComesFrom;
    assert IsOriginator(pip, z, w);
    y :| ComesFrom(pip, z, y) && IsImmediatePredecessor(pip, y, w);
  }

  lemma OriginatorExpectsLeft(
      lg: LaneGraph, pip: ParserInProgress, og: ParserGraph, firstSets: seq<set<int>>, z: nat, w: nat)
    requires pip == TheMachine() && IsSetUp(lg, pip, og, firstSets, 10) && lg.Valid() && HasEdge(lg.og, z, w)
    ensures pip.IsAddress(z) && pip.IsAddress(w) && Next(pip.ConfigAt(w)) == Left(pip.ConfigAt(z))
  {
    hide TheMachine, TheConfigs, TheGrammar, Next, SymbolAfterDot, IsSetUp, ParserInProgress.Valid, Left;
    var y := OriginatorIsAbove(lg, pip, og, firstSets, z, w);
    MachineHas(pip);
    ConfigIsSmall(pip, z);
    ConfigIsSmall(pip, y);
    ConfigIsSmall(pip, w);
    var path :| IsTransitionPath(pip, path, z, y);
    PathKeepsProduction(pip, path, z, y);
    LeftIs(pip.g, pip.cs, pip.ConfigAt(z));
    LeftIs(pip.g, pip.cs, pip.ConfigAt(y));
    NextIs(pip.g, pip.cs, pip.ConfigAt(w));
  }

  lemma LeadsDown(
      lg: LaneGraph, pip: ParserInProgress, og: ParserGraph, firstSets: seq<set<int>>, z: nat, w: nat)
    requires pip == TheMachine() && IsSetUp(lg, pip, og, firstSets, 10) && lg.Valid() && Continues(lg, z, w)
    ensures pip.IsAddress(z) && pip.IsAddress(w) && Rank(pip.ConfigAt(w)) < Rank(pip.ConfigAt(z))
  {
    hide TheMachine, IsSetUp, Next;
    OriginatorExpectsLeft(lg, pip, og, firstSets, z, w);
    ConfigIsSmall(pip, w);
    FirstsAre(lg, pip, og, firstSets, w);
    NextOfStart(pip.ConfigAt(w));
  }

  lemma LaneLeadsDown(
      lg: LaneGraph, pip: ParserInProgress, og: ParserGraph, firstSets: seq<set<int>>, path: seq<nat>, z: nat, y: nat)
    requires pip == TheMachine() && IsSetUp(lg, pip, og, firstSets, 10) && lg.Valid() && IsLane(lg, path, z, y)
    requires pip.IsAddress(z)
    ensures pip.IsAddress(y) && Rank(pip.ConfigAt(y)) <= Rank(pip.ConfigAt(z))
    decreases |path|
  {
    hide TheMachine, IsSetUp, Rank, Continues;
    if |path| > 1 {
      FirstStep(lg, path, z, y);
      LeadsDown(lg, pip, og, firstSets, z, path[1]);
      LaneLeadsDown(lg, pip, og, firstSets, path[1..], path[1], y);
    }
  }

  lemma LanesAreAcyclic(
      lg: LaneGraph, pip: ParserInProgress, og: ParserGraph, firstSets: seq<set<int>>)
    requires pip == TheMachine() && IsSetUp(lg, pip, og, firstSets, 10) && lg.Valid()
    ensures IsAcyclic(lg)
  {
    hide TheMachine, IsSetUp, Rank, Continues, IsLane;
    forall z: nat
      ensures !Leads(lg, z, z)
    {
      if Leads(lg, z, z) {
        var x: nat :| Continues(lg, z, x) && Reaches(lg, x, z);
        var path :| IsLane(lg, path, x, z);
        LeadsDown(lg, pip, og, firstSets, z, x);
        LaneLeadsDown(lg, pip, og, firstSets, path, x, z);
        assert false;
      }
    }
  }

  lemma TwoReductions(pip: ParserInProgress)
    requires pip == TheMachine()
    ensures |pip.states| == 6 && |pip.states[1].actions| == 2
    ensures IsReductionOf(pip, 1, 4, pip.states[1].actions[0]) && IsReductionOf(pip, 1, 5, pip.states[1].actions[1])
    ensures !IsAdequate(pip.g, pip.states[1]) && pip.g.IsTerminal(END)
  {
    hide MachineOf, Terminals;
    SomeAddresses(pip);
    MachineHas(pip);
    CompleteAre(pip.g, pip.cs);
    var actions := pip.states[1].actions;
    assert actions == AllInLr0Context(pip.g, ShiftsTo([], []) + OnReduce([1, 2]));
    assert actions[0] == ActionInProgress(Reduce(1), Terminals(pip.g));
    assert actions[1] == ActionInProgress(Reduce(2), Terminals(pip.g));
    EndIsTerminal(pip.g);
    assert Clash(pip.g, actions[0], actions[1]);
  }

  lemma EndIsTerminal(g: Grammar)
    requires g == TheGrammar()
    ensures g.IsTerminal(END) && END in Terminals(g)
  {
  }

  lemma HasConflict(
      lg: LaneGraph, pip: ParserInProgress, og: ParserGraph, firstSets: seq<set<int>>)
    requires pip == TheMachine() && IsSetUp(lg, pip, og, firstSets, 10) && lg.Valid()
    ensures !IsConflictFree(lg, pip)
  {
    hide TheMachine, IsSetUp, InContext, IsReductionOf, IsLr1Item;
    ContextIsNoLookahead(lg, pip, og, firstSets);
    TwoReductions(pip);
    var a, b := pip.states[1].actions[0], pip.states[1].actions[1];
    assert IsPossible(lg, pip, 1, a, END) && IsPossible(lg, pip, 1, b, END) by {
      IsPossibleAt(lg, pip, 1, 4, 0, END);
      IsPossibleAt(lg, pip, 1, 5, 1, END);
    }
    assert MayClash(lg, pip, 1, a, b);
    assert !StateIsConflictFree(lg, pip, 1);
  }

  /** The construction, from the machine on, refuses the grammar, which is LALR(1). */
  method RefuseTheMachine(pip: ParserInProgress)
    returns (verdict: Verdict, out: ParserInProgress, ghost c: Construction)
    requires pip == TheMachine()
    ensures c.lr0 == pip && c.HasLanes() && IsLalr1Machine(pip, c.start)
    ensures verdict.IsNotLalr1? && c.Justifies(verdict, out)
  {
    hide TheMachine, IsLalr1Machine, IsConflictFree, IsSetUp, IsLr0Machine, ParserInProgress.Valid, IsAdequate,
      IsAcyclic, HasTangle, HasSnare, IsAmbiguous, Construction.HasTraced, Construction.HasAllContexts, IsBrokenLog,
      IsReductionOf;
    IsLalr1(pip);
    TwoReductions(pip);
    verdict, out, c := FinishParser(pip, 10);
    HasConflict(c.lg, pip, c.og, c.firstSets);
    LanesAreAcyclic(c.lg, pip, c.og, c.firstSets);
    AcyclicIsHarmless(c.lg);
    if verdict.IsLalr1? {
      AllContextsAreFound(c, out);
    }
  }
}
