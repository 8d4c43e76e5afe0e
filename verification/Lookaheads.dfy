/** What the contexts mean: they hold every lookahead that the canonical LR(1) machine would have, and,
    if the originators are those of LALR(1) and something can follow at each, nothing else. */
module Lookaheads {
  import opened Containers
  import opened Grammars
  import opened FirstSets
  import opened Lr0
  import opened Originators
  import opened Lanes
  import opened LaneTracing

  /** A config of a state, with a terminal that may follow its left-hand side. */
  datatype Item = Item(address: nat, lookahead: int)

  /** The start config, in the start state, before the end of the input. */
  ghost predicate IsStartItem(pip: ParserInProgress, start: nat, item: Item) {
    && pip.IsAddress(item.address) && pip.scs[item.address].state == 0
    && pip.ConfigAt(item.address) == start && item.lookahead == pip.g.EndTerminal()
  }

  /** `u` can follow what `w` expects, when `t` follows the left-hand side of `w`. */
  ghost predicate FollowsWith(pip: ParserInProgress, w: nat, t: int, u: int)
    requires pip.IsAddress(w) && 0 <= pip.ConfigAt(w) < |pip.cs|
    requires pip.cs[pip.ConfigAt(w)].production < |pip.g.productions|
  {
    || (u != FIRST_NULL && InFirst(pip.g, FollowString(pip, w), u))
    || (u == t && InFirst(pip.g, FollowString(pip, w), FIRST_NULL))
  }

  /** The steps of the LR(1) construction: moving the dot along a transition keeps the lookahead, and
      expanding the symbol after the dot takes the terminals that can follow that symbol. */
  ghost predicate IsItemStep(pip: ParserInProgress, a: Item, b: Item)
    requires pip.Valid()
  {
    || (IsTransitionPredecessor(pip, b.address, a.address) && b.lookahead == a.lookahead)
    || (DotAtStart(pip, b.address) && IsImmediatePredecessor(pip, b.address, a.address)
        && FollowsWith(pip, a.address, a.lookahead, b.lookahead))
  }

  ghost predicate IsItemRun(pip: ParserInProgress, start: nat, run: seq<Item>)
    requires pip.Valid()
  {
    && run != [] && IsStartItem(pip, start, run[0])
    && forall i {:trigger IsRunStep(pip, run, i)} :: IsRunStep(pip, run, i)
  }

  ghost predicate IsRunStep(pip: ParserInProgress, run: seq<Item>, i: int)
    requires pip.Valid()
  {
    0 <= i < |run| - 1 ==> IsItemStep(pip, run[i], run[i + 1])
  }

  lemma LastRunStep(pip: ParserInProgress, start: nat, run: seq<Item>)
    requires pip.Valid() && IsItemRun(pip, start, run) && 1 < |run|
    ensures IsItemStep(pip, run[|run| - 2], run[|run| - 1]) && IsItemRun(pip, start, run[..|run| - 1])
  {
    assert IsRunStep(pip, run, |run| - 2);
    var front := run[..|run| - 1];
    forall i
      ensures IsRunStep(pip, front, i)
    {
      assert IsRunStep(pip, run, i);
    }
  }

  /** The item is valid after some string that leads to its state. */
  ghost predicate IsLr1Item(pip: ParserInProgress, start: nat, item: Item)
    requires pip.Valid()
  {
    exists run :: IsItemRun(pip, start, run) && run[|run| - 1] == item
  }

  lemma RunOf(pip: ParserInProgress, start: nat, item: Item) returns (run: seq<Item>, last: nat)
    requires pip.Valid() && IsLr1Item(pip, start, item)
    ensures IsItemRun(pip, start, run) && last < |run| && run[last] == item
  {
    run :| IsItemRun(pip, start, run) && run[|run| - 1] == item;
    last := |run| - 1;
  }

  lemma OneMoreStep(pip: ParserInProgress, start: nat, a: Item, b: Item)
    requires pip.Valid() && IsLr1Item(pip, start, a) && IsItemStep(pip, a, b)
    ensures IsLr1Item(pip, start, b)
  {
    hide IsItemStep, ParserInProgress.Valid;
    var run :| IsItemRun(pip, start, run) && run[|run| - 1] == a;
    var longer := run + [b];
    forall i
      ensures IsRunStep(pip, longer, i)
    {
      assert IsRunStep(pip, run, i);
    }
    assert IsItemRun(pip, start, longer);
  }

  /** The sets describe the machine and hold exactly what they should. */
  ghost predicate IsSetUp(lg: LaneGraph, pip: ParserInProgress, og: ParserGraph, firstSets: seq<set<int>>, start: nat) {
    && Describes(lg, pip, og, firstSets) && Exact(pip.g, firstSets)
    && IsLr0Machine(pip.g, pip.cs, start, pip.states)
  }

  lemma FirstOfFollow(
      lg: LaneGraph, pip: ParserInProgress, og: ParserGraph, firstSets: seq<set<int>>, w: nat, x: int)
    requires Describes(lg, pip, og, firstSets) && Exact(pip.g, firstSets) && w < |og|
    ensures x in lg.first[w] <==> InFirst(pip.g, FollowString(pip, w), x)
  {
    FirstOfStringIsExact(pip.g, firstSets, FollowString(pip, w), x);
  }

  lemma {:induction false} SetUpHasFirst(
      lg: LaneGraph, pip: ParserInProgress, og: ParserGraph, firstSets: seq<set<int>>, start: nat, z: nat)
    requires IsSetUp(lg, pip, og, firstSets, start) && pip.IsAddress(z)
    ensures pip.Valid() && pip.g.Valid() && lg.Valid() && z < |lg.og| && Exact(pip.g, firstSets)
    ensures InRange(FollowString(pip, z), |firstSets|)
    ensures IsOriginatorGraph(pip, lg.og)
    ensures lg.first[z] == FirstOfString(FollowString(pip, z), firstSets)
    ensures lg.base[z] == if IsAccepting(pip, z) then {pip.g.EndTerminal()} else {}
  {
  }

  // ----- no lookahead is missed -----

  /** Moving the dot keeps the contexts. */
  lemma ContextsMoveOn(
      lg: LaneGraph, pip: ParserInProgress, og: ParserGraph, firstSets: seq<set<int>>, z: nat, w: nat, t: int)
    requires Describes(lg, pip, og, firstSets)
    requires IsTransitionPredecessor(pip, z, w) && InContext(lg, w, t)
    ensures InContext(lg, z, t)
  {
    ComesFromItself(pip, z);
    ComesFromFurther(pip, z, z, w);
    forall x: nat | HasEdge(og, w, x)
      ensures HasEdge(og, z, x)
    {
      var y: nat :| ComesFrom(pip, w, y) && IsImmediatePredecessor(pip, y, x);
      PathsJoin(pip, z, w, y);
    }
    MoreOriginatorsMoreContexts(lg, w, z, t);
  }

  /** Expanding a symbol gives contexts that can follow it. */
  lemma ContextsExpand(
      lg: LaneGraph, pip: ParserInProgress, og: ParserGraph, firstSets: seq<set<int>>, z: nat, w: nat, t: int, u: int)
    requires Describes(lg, pip, og, firstSets) && Exact(pip.g, firstSets)
    requires IsImmediatePredecessor(pip, z, w) && InContext(lg, w, t) && FollowsWith(pip, w, t, u)
    ensures InContext(lg, z, u)
  {
    ComesFromItself(pip, z);
    assert HasEdge(og, z, w);
    FirstOfFollow(lg, pip, og, firstSets, w, u);
    FirstOfFollow(lg, pip, og, firstSets, w, FIRST_NULL);
    if u in lg.first[w] && u != FIRST_NULL {
      FirstIsContext(lg, z, w, u);
    } else {
      StepLeads(lg, z, w);
      LeadsIsReaches(lg, z, w);
      ContextsFlow(lg, z, w, u);
    }
  }

  lemma StartIsInContext(
      lg: LaneGraph, pip: ParserInProgress, og: ParserGraph, firstSets: seq<set<int>>, start: nat, item: Item)
    requires Describes(lg, pip, og, firstSets) && IsStartItem(pip, start, item)
    requires Starts(pip.g, pip.cs, start, pip.g.AcceptNonterminal())
    ensures InContext(lg, item.address, item.lookahead)
  {
    assert IsAccepting(pip, item.address);
    ReachesItself(lg, item.address);
  }

  lemma StepStaysInContext(
      lg: LaneGraph, pip: ParserInProgress, og: ParserGraph, firstSets: seq<set<int>>, a: Item, b: Item)
    requires Describes(lg, pip, og, firstSets) && Exact(pip.g, firstSets)
    requires IsItemStep(pip, a, b) && InContext(lg, a.address, a.lookahead)
    ensures InContext(lg, b.address, b.lookahead)
  {
    if IsTransitionPredecessor(pip, b.address, a.address) && b.lookahead == a.lookahead {
      ContextsMoveOn(lg, pip, og, firstSets, b.address, a.address, b.lookahead);
    } else {
      ContextsExpand(lg, pip, og, firstSets, b.address, a.address, a.lookahead, b.lookahead);
    }
  }

  lemma RunStaysInContext(
      lg: LaneGraph, pip: ParserInProgress, og: ParserGraph, firstSets: seq<set<int>>, start: nat, run: seq<Item>,
      i: nat)
    requires Describes(lg, pip, og, firstSets) && Exact(pip.g, firstSets)
    requires Starts(pip.g, pip.cs, start, pip.g.AcceptNonterminal())
    requires IsItemRun(pip, start, run) && i < |run|
    ensures InContext(lg, run[i].address, run[i].lookahead)
  {
    if i == 0 {
      StartIsInContext(lg, pip, og, firstSets, start, run[0]);
    } else {
      RunStaysInContext(lg, pip, og, firstSets, start, run, i - 1);
      assert IsRunStep(pip, run, i - 1);
      StepStaysInContext(lg, pip, og, firstSets, run[i - 1], run[i]);
    }
  }

  /** The contexts of an address hold every LR(1) lookahead it has. */
  lemma ContextsCoverLookaheads(
      lg: LaneGraph, pip: ParserInProgress, og: ParserGraph, firstSets: seq<set<int>>, start: nat, z: nat, t: int)
    requires Describes(lg, pip, og, firstSets) && Exact(pip.g, firstSets)
    requires Starts(pip.g, pip.cs, start, pip.g.AcceptNonterminal()) && IsLr1Item(pip, start, Item(z, t))
    ensures InContext(lg, z, t)
  {
    var run, last := RunOf(pip, start, Item(z, t));
    RunStaysInContext(lg, pip, og, firstSets, start, run, last);
  }

  // ----- every address has a lookahead -----

  /** Every symbol derives some string of terminals. */
  ghost predicate IsProductive(g: Grammar) {
    forall s: nat :: s < g.nsymbols ==> IsUseful(g, s)
  }

  ghost predicate IsUseful(g: Grammar, s: nat) {
    exists t :: DerivesTerminals(g, t, s)
  }

  ghost predicate DerivesTerminals(g: Grammar, t: Tree, s: nat) {
    && IsDerivation(g, t) && Root(g, t) == s
    && forall i :: 0 <= i < |Yield(t)| ==> g.IsTerminal(Yield(t)[i])
  }

  /** So no FIRST set is empty. */
  lemma ProductiveHasFirst(g: Grammar, firstSets: seq<set<int>>, s: nat)
    requires g.Valid() && Exact(g, firstSets) && IsProductive(g) && s < g.nsymbols
    ensures firstSets[s] != {}
  {
    assert IsUseful(g, s);
    var t :| DerivesTerminals(g, t, s);
    var x := if Yield(t) == [] then FIRST_NULL else Yield(t)[0];
    assert YieldAll([t]) == Yield(t) + YieldAll([t][1..]) == Yield(t);
    assert Derives(g, [s], [t]) && LeadsWith(YieldAll([t]), x);
    assert InFirst(g, [s], x);
  }

  lemma {:induction false} StringHasFirst(g: Grammar, firstSets: seq<set<int>>, str: seq<nat>)
    requires g.Valid() && Exact(g, firstSets) && IsProductive(g) && InRange(str, g.nsymbols)
    ensures FirstOfString(str, firstSets) != {}
  {
    if str != [] {
      ProductiveHasFirst(g, firstSets, str[0]);
      StringHasFirst(g, firstSets, str[1..]);
    }
  }

  /** A follow string is taken to vanish exactly when it can, unless it derives neither a terminal first nor nothing. */
  lemma WhenVanishingIsDerivingNothing(
      lg: LaneGraph, pip: ParserInProgress, og: ParserGraph, firstSets: seq<set<int>>, w: nat)
    requires Describes(lg, pip, og, firstSets) && Exact(pip.g, firstSets) && w < |og|
    ensures (Vanishes(lg.first[w]) <==> InFirst(pip.g, FollowString(pip, w), FIRST_NULL)) <==> lg.first[w] != {}
  {
    FirstOfFollow(lg, pip, og, firstSets, w, FIRST_NULL);
  }

  /** Something, or nothing, can follow at each originator. */
  ghost predicate OriginatorsHaveFirst(lg: LaneGraph)
    requires lg.Valid()
  {
    forall z: nat, w: nat :: HasEdge(lg.og, z, w) ==> w < |lg.og| && lg.first[w] != {}
  }

  /** In a grammar without useless nonterminals that is so. */
  lemma ProductiveOriginatorsHaveFirst(
      lg: LaneGraph, pip: ParserInProgress, og: ParserGraph, firstSets: seq<set<int>>)
    requires Describes(lg, pip, og, firstSets) && Exact(pip.g, firstSets) && IsProductive(pip.g)
    ensures OriginatorsHaveFirst(lg)
  {
    forall z: nat, w: nat | HasEdge(lg.og, z, w)
      ensures w < |lg.og| && lg.first[w] != {}
    {
      StringHasFirst(pip.g, firstSets, FollowString(pip, w));
    }
  }

  lemma SomethingFollows(
      lg: LaneGraph, pip: ParserInProgress, og: ParserGraph, firstSets: seq<set<int>>, w: nat, t: int)
    returns (u: int)
    requires Describes(lg, pip, og, firstSets) && Exact(pip.g, firstSets) && w < |og| && lg.first[w] != {}
    ensures FollowsWith(pip, w, t, u)
  {
    HasElement(lg.first[w]);
    var x :| x in lg.first[w];
    FirstOfFollow(lg, pip, og, firstSets, w, x);
    u := if x == FIRST_NULL then t else x;
  }

  ghost predicate IsLive(pip: ParserInProgress, start: nat, z: nat)
    requires pip.Valid()
  {
    exists t :: IsLr1Item(pip, start, Item(z, t))
  }

  /** The address of config `c` of state `s`. */
  ghost predicate IsAt(pip: ParserInProgress, z: nat, s: nat, c: int) {
    pip.IsAddress(z) && pip.scs[z].state == s && pip.ConfigAt(z) == c
  }

  lemma AddressOf(pip: ParserInProgress, s: nat, c: int) returns (z: nat)
    requires pip.Valid() && s < |pip.states| && c in pip.states[s].configs
    ensures IsAt(pip, z, s, c)
  {
    var k :| 0 <= k < |pip.states[s].configs| && pip.states[s].configs[k] == c;
    z := pip.states2scs[s][k];
    assert pip.scs[z] == StateConfig(s, k);
  }

  lemma OneAddress(pip: ParserInProgress, z: nat, w: nat, s: nat, c: int)
    requires pip.Valid() && IsAt(pip, z, s, c) && IsAt(pip, w, s, c)
    ensures z == w
  {
    var configs := pip.states[s].configs;
    var i, j := pip.scs[z].configInState, pip.scs[w].configInState;
    assert configs[i] == configs[j];
    assert i == j;
    assert pip.states2scs[s][i] == z;
  }

  ghost function LiveConfigs(pip: ParserInProgress, start: nat, s: nat): set<int>
    requires pip.Valid() && s < |pip.states|
  {
    set c | c in Elements(pip.states[s].configs) && exists z: nat :: IsAt(pip, z, s, c) && IsLive(pip, start, z)
  }

  lemma LiveConfigsAreClosed(
      lg: LaneGraph, pip: ParserInProgress, og: ParserGraph, firstSets: seq<set<int>>, start: nat, s: nat)
    requires IsSetUp(lg, pip, og, firstSets, start) && OriginatorsHaveFirst(lg) && s < |pip.states|
    requires IsClosed(pip.g, pip.cs, Elements(pip.states[s].configs))
    ensures IsClosed(pip.g, pip.cs, LiveConfigs(pip, start, s))
  {
    var g, cs := pip.g, pip.cs;
    var items := Elements(pip.states[s].configs);
    var live := LiveConfigs(pip, start, s);
    forall c, d, x: int | c in live && Expects(g, cs, c, x) && !g.IsTerminal(x) && Starts(g, cs, d, x)
      ensures d in live
    {
      assert c in items && IsExpanded(g, cs, items, c);
      LiveConfigStarts(lg, pip, og, firstSets, start, s, c, d, x);
    }
  }

  lemma LiveConfigStarts(
      lg: LaneGraph, pip: ParserInProgress, og: ParserGraph, firstSets: seq<set<int>>, start: nat, s: nat,
      c: int, d: int, x: int)
    requires IsSetUp(lg, pip, og, firstSets, start) && OriginatorsHaveFirst(lg) && s < |pip.states|
    requires c in LiveConfigs(pip, start, s) && d in Elements(pip.states[s].configs)
    requires Expects(pip.g, pip.cs, c, x) && !pip.g.IsTerminal(x) && Starts(pip.g, pip.cs, d, x)
    ensures d in LiveConfigs(pip, start, s)
  {
    var w: nat :| IsAt(pip, w, s, c) && IsLive(pip, start, w);
    var z := AddressOf(pip, s, d);
    LiveAddressStarts(lg, pip, og, firstSets, start, w, z);
  }

  lemma LiveAddressStarts(
      lg: LaneGraph, pip: ParserInProgress, og: ParserGraph, firstSets: seq<set<int>>, start: nat, w: nat, z: nat)
    requires IsSetUp(lg, pip, og, firstSets, start) && OriginatorsHaveFirst(lg) && IsLive(pip, start, w)
    requires IsImmediatePredecessor(pip, z, w) && DotAtStart(pip, z)
    ensures IsLive(pip, start, z)
  {
    var t :| IsLr1Item(pip, start, Item(w, t));
    ComesFromItself(pip, z);
    assert HasEdge(og, z, w);
    var u := SomethingFollows(lg, pip, og, firstSets, w, t);
    OneMoreStep(pip, start, Item(w, t), Item(z, u));
  }

  /** All configs of a state are live if the kernel of the state is. */
  lemma LiveKernelLiveState(
      lg: LaneGraph, pip: ParserInProgress, og: ParserGraph, firstSets: seq<set<int>>, start: nat, s: nat,
      kernel: set<int>)
    requires IsSetUp(lg, pip, og, firstSets, start) && OriginatorsHaveFirst(lg) && s < |pip.states|
    requires IsClosure(pip.g, pip.cs, kernel, Elements(pip.states[s].configs))
    requires kernel <= LiveConfigs(pip, start, s)
    ensures forall z: nat :: pip.IsAddress(z) && pip.scs[z].state == s ==> IsLive(pip, start, z)
  {
    LiveConfigsAreClosed(lg, pip, og, firstSets, start, s);
    forall z: nat | pip.IsAddress(z) && pip.scs[z].state == s
      ensures IsLive(pip, start, z)
    {
      assert pip.ConfigAt(z) in Elements(pip.states[s].configs);
      assert pip.ConfigAt(z) in LiveConfigs(pip, start, s);
      var w: nat :| IsAt(pip, w, s, pip.ConfigAt(z)) && IsLive(pip, start, w);
      OneAddress(pip, z, w, s, pip.ConfigAt(z));
    }
  }

  lemma AdvanceIsPredecessor(
      pip: ParserInProgress, start: nat, j: nat, i: nat, x: int, c: int, z: nat, w: nat)
    requires pip.Valid() && IsLr0Machine(pip.g, pip.cs, start, pip.states) && j < |pip.states| && i < |pip.states|
    requires IsGoto(pip.g, pip.cs, Elements(pip.states[j].configs), x, Elements(pip.states[i].configs))
    requires Expects(pip.g, pip.cs, c, x) && IsAt(pip, w, j, c) && IsAt(pip, z, i, c + 1)
    ensures IsTransitionPredecessor(pip, z, w)
  {
    ShiftsAreGotos(pip.g, pip.cs, start, pip.states, j, x, i);
    assert IsFollowedByAdvance(pip.g, pip.cs, c);
  }

  lemma AdvanceIsLive(
      pip: ParserInProgress, start: nat, j: nat, i: nat, x: int, c: int)
    requires pip.Valid() && IsLr0Machine(pip.g, pip.cs, start, pip.states) && j < |pip.states| && i < |pip.states|
    requires IsGoto(pip.g, pip.cs, Elements(pip.states[j].configs), x, Elements(pip.states[i].configs))
    requires c in Elements(pip.states[j].configs) && Expects(pip.g, pip.cs, c, x)
    requires forall z: nat :: pip.IsAddress(z) && pip.scs[z].state == j ==> IsLive(pip, start, z)
    ensures c + 1 in LiveConfigs(pip, start, i)
  {
    var w := AddressOf(pip, j, c);
    assert c + 1 in KernelAfter(pip.g, pip.cs, Elements(pip.states[j].configs), x);
    var z := AddressOf(pip, i, c + 1);
    AdvanceIsPredecessor(pip, start, j, i, x, c, z, w);
    var t :| IsLr1Item(pip, start, Item(w, t));
    OneMoreStep(pip, start, Item(w, t), Item(z, t));
    assert IsLive(pip, start, z);
  }

  lemma StartIsLive(pip: ParserInProgress, start: nat)
    requires pip.Valid() && IsLr0Machine(pip.g, pip.cs, start, pip.states)
    ensures start in LiveConfigs(pip, start, 0)
    ensures IsClosure(pip.g, pip.cs, {start}, Elements(pip.states[0].configs))
  {
    assert ItemsOf(pip.states)[0] == pip.states[0].configs && start in Elements(pip.states[0].configs);
    var z := AddressOf(pip, 0, start);
    assert IsItemRun(pip, start, [Item(z, pip.g.EndTerminal())]);
    assert IsLr1Item(pip, start, Item(z, pip.g.EndTerminal()));
  }

  lemma EveryAddressIsLive(
      lg: LaneGraph, pip: ParserInProgress, og: ParserGraph, firstSets: seq<set<int>>, start: nat, s: nat)
    requires IsSetUp(lg, pip, og, firstSets, start) && OriginatorsHaveFirst(lg) && s < |pip.states|
    ensures forall z: nat :: pip.IsAddress(z) && pip.scs[z].state == s ==> IsLive(pip, start, z)
  {
    var items := ItemsOf(pip.states);
    if s == 0 {
      StartIsLive(pip, start);
      LiveKernelLiveState(lg, pip, og, firstSets, start, 0, {start});
    } else {
      assert HasParent(pip.g, pip.cs, items, s);
      var j: nat, x :| j < s && IsGoto(pip.g, pip.cs, Elements(items[j]), x, Elements(items[s]));
      EveryAddressIsLive(lg, pip, og, firstSets, start, j);
      var kernel := KernelAfter(pip.g, pip.cs, Elements(items[j]), x);
      forall d | d in kernel
        ensures d in LiveConfigs(pip, start, s)
      {
        AdvanceIsLive(pip, start, j, s, x, d - 1);
      }
      LiveKernelLiveState(lg, pip, og, firstSets, start, s, kernel);
    }
  }

  // ----- nothing else is a context -----

  /** The accepting configs only ever have the end of the input as lookahead. */
  lemma AcceptingLookahead(pip: ParserInProgress, start: nat, run: seq<Item>)
    requires pip.Valid() && IsItemRun(pip, start, run)
    requires IsAccepting(pip, run[|run| - 1].address)
    ensures run[|run| - 1].lookahead == pip.g.EndTerminal()
    decreases |run|
  {
    if |run| > 1 {
      var before, last := run[|run| - 2], run[|run| - 1];
      LastRunStep(pip, start, run);
      if IsTransitionPredecessor(pip, last.address, before.address) && last.lookahead == before.lookahead {
        AcceptingLookahead(pip, start, run[..|run| - 1]);
      }
    }
  }

  /** An item moves on along the transitions that lead to its address. */
  lemma MoveAlong(pip: ParserInProgress, start: nat, path: seq<nat>, z: nat, y: nat, t: int)
    requires pip.Valid() && IsTransitionPath(pip, path, z, y) && IsLr1Item(pip, start, Item(y, t))
    ensures IsLr1Item(pip, start, Item(z, t))
    decreases |path|
  {
    if |path| > 1 {
      FirstPathStep(pip, path, z, y);
      MoveAlong(pip, start, path[1..], path[1], y, t);
      OneMoreStep(pip, start, Item(path[1], t), Item(z, t));
    }
  }

  /** A lookahead at an originator gives one here. */
  lemma FromOriginator(pip: ParserInProgress, start: nat, z: nat, w: nat, t: int, u: int)
    requires pip.Valid() && IsLalrOriginator(pip, z, w) && IsLr1Item(pip, start, Item(w, t))
    requires pip.IsAddress(w) && 0 <= pip.ConfigAt(w) < |pip.cs|
    requires FollowsWith(pip, w, t, u)
    ensures IsLr1Item(pip, start, Item(z, u))
  {
    var y: nat :| ComesFrom(pip, z, y) && DotAtStart(pip, y) && IsImmediatePredecessor(pip, y, w);
    OneMoreStep(pip, start, Item(w, t), Item(y, u));
    var path :| IsTransitionPath(pip, path, z, y);
    MoveAlong(pip, start, path, z, y, u);
  }

  lemma LookaheadOf(
      lg: LaneGraph, pip: ParserInProgress, og: ParserGraph, firstSets: seq<set<int>>, start: nat, z: nat)
    returns (t: int)
    requires IsSetUp(lg, pip, og, firstSets, start) && OriginatorsHaveFirst(lg) && pip.IsAddress(z)
    ensures IsLr1Item(pip, start, Item(z, t))
  {
    EveryAddressIsLive(lg, pip, og, firstSets, start, pip.scs[z].state);
    assert IsLive(pip, start, z);
    t :| IsLr1Item(pip, start, Item(z, t));
  }

  lemma EndIsLookahead(
      lg: LaneGraph, pip: ParserInProgress, og: ParserGraph, firstSets: seq<set<int>>, start: nat, z: nat, t: int)
    requires IsSetUp(lg, pip, og, firstSets, start) && OriginatorsHaveFirst(lg) && z < |og| && t in lg.base[z]
    ensures IsLr1Item(pip, start, Item(z, t))
  {
    var u := LookaheadOf(lg, pip, og, firstSets, start, z);
    var run :| IsItemRun(pip, start, run) && run[|run| - 1] == Item(z, u);
    AcceptingLookahead(pip, start, run);
  }

  lemma FollowingIsLookahead(
      lg: LaneGraph, pip: ParserInProgress, og: ParserGraph, firstSets: seq<set<int>>, start: nat, z: nat, w: nat,
      t: int)
    requires IsSetUp(lg, pip, og, firstSets, start) && OriginatorsHaveFirst(lg)
    requires IsLalrOriginator(pip, z, w) && w < |og| && t != NULL && t in lg.first[w]
    ensures IsLr1Item(pip, start, Item(z, t))
  {
    var u := LookaheadOf(lg, pip, og, firstSets, start, w);
    FirstOfFollow(lg, pip, og, firstSets, w, t);
    FromOriginator(pip, start, z, w, u, t);
  }

  /** What can follow directly is a lookahead. */
  lemma ContributedIsLookahead(
      lg: LaneGraph, pip: ParserInProgress, og: ParserGraph, firstSets: seq<set<int>>, start: nat, z: nat, t: int)
    requires IsSetUp(lg, pip, og, firstSets, start) && OriginatorsHaveFirst(lg) && OriginatorsAreLalr(pip)
    requires z < |og| && Contributes(lg, z, t)
    ensures IsLr1Item(pip, start, Item(z, t))
  {
    if t in lg.base[z] {
      EndIsLookahead(lg, pip, og, firstSets, start, z, t);
    } else {
      var w: nat :| HasEdge(og, z, w) && t != NULL && t in lg.first[w];
      assert w < |og| && IsOriginator(pip, z, w) && IsLalrOriginator(pip, z, w);
      FollowingIsLookahead(lg, pip, og, firstSets, start, z, w, t);
    }
  }

  lemma ContinuedLookahead(
      lg: LaneGraph, pip: ParserInProgress, og: ParserGraph, firstSets: seq<set<int>>, start: nat, z: nat, w: nat,
      t: int)
    requires IsSetUp(lg, pip, og, firstSets, start) && OriginatorsHaveFirst(lg) && OriginatorsAreLalr(pip)
    requires Continues(lg, z, w) && w < |og| && IsLr1Item(pip, start, Item(w, t))
    ensures IsLr1Item(pip, start, Item(z, t))
  {
    WhenVanishingIsDerivingNothing(lg, pip, og, firstSets, w);
    assert IsOriginator(pip, z, w);
    FromOriginator(pip, start, z, w, t, t);
  }

  lemma LaneGivesLookahead(
      lg: LaneGraph, pip: ParserInProgress, og: ParserGraph, firstSets: seq<set<int>>, start: nat,
      path: seq<nat>, z: nat, y: nat, t: int)
    requires IsSetUp(lg, pip, og, firstSets, start) && OriginatorsHaveFirst(lg) && OriginatorsAreLalr(pip)
    requires IsLane(lg, path, z, y) && Contributes(lg, y, t)
    ensures IsLr1Item(pip, start, Item(z, t))
    decreases |path|
  {
    if |path| == 1 {
      ContributedIsLookahead(lg, pip, og, firstSets, start, z, t);
    } else {
      FirstStep(lg, path, z, y);
      LaneGivesLookahead(lg, pip, og, firstSets, start, path[1..], path[1], y, t);
      ContinuedLookahead(lg, pip, og, firstSets, start, z, path[1], t);
    }
  }

  /** If something can follow at each originator, and those are the LALR(1) ones, the contexts of an
      address are its LR(1) lookaheads over all the strings that lead to its state: the LALR(1) ones. */
  lemma ContextsAreLookaheads(
      lg: LaneGraph, pip: ParserInProgress, og: ParserGraph, firstSets: seq<set<int>>, start: nat, z: nat, t: int)
    requires IsSetUp(lg, pip, og, firstSets, start) && OriginatorsHaveFirst(lg) && OriginatorsAreLalr(pip)
    ensures InContext(lg, z, t) <==> IsLr1Item(pip, start, Item(z, t))
  {
    if InContext(lg, z, t) {
      var y: nat :| Reaches(lg, z, y) && y < |lg.og| && Contributes(lg, y, t);
      var path :| IsLane(lg, path, z, y);
      LaneGivesLookahead(lg, pip, og, firstSets, start, path, z, y, t);
    }
    if IsLr1Item(pip, start, Item(z, t)) {
      ContextsCoverLookaheads(lg, pip, og, firstSets, start, z, t);
    }
  }
}
