/** Checking a machine that is written out: closures, transitions and actions by what each config expects. */
module Sheets {
  import opened Containers
  import opened Grammars
  import opened Lr0
  import opened Originators

  /** The configs of production `p` start at `at[p]`. */
  ghost predicate HasConfigsAt(g: Grammar, cs: Configs, at: seq<nat>, p: int) {
    0 <= p < |g.productions| && p + 1 < |at| ==>
      && at[p + 1] == at[p] + |g.productions[p].rhs| + 1 <= |cs|
      && forall dot :: 0 <= dot <= |g.productions[p].rhs| ==> cs[at[p] + dot] == Config(p, dot)
  }

  lemma {:induction false} ConfigsBefore(g: Grammar, cs: Configs, at: seq<nat>, n: nat)
    requires n <= |g.productions| && |at| == |g.productions| + 1 && at[0] == 0
    requires forall p {:trigger HasConfigsAt(g, cs, at, p)} :: HasConfigsAt(g, cs, at, p)
    ensures at[n] <= |cs| && MarkedBefore(g, n) == cs[..at[n]]
  {
    if n > 0 {
      ConfigsBefore(g, cs, at, n - 1);
      assert HasConfigsAt(g, cs, at, n - 1);
      assert cs[..at[n]] == cs[..at[n - 1]] + cs[at[n - 1]..at[n]];
      assert cs[at[n - 1]..at[n]] == Marked(g, n - 1);
    }
  }

  lemma ConfigsAre(g: Grammar, cs: Configs, at: seq<nat>)
    requires |at| == |g.productions| + 1 && at[0] == 0 && at[|g.productions|] == |cs|
    requires forall p {:trigger HasConfigsAt(g, cs, at, p)} :: HasConfigsAt(g, cs, at, p)
    ensures AreConfigs(g, cs)
  {
    ConfigsBefore(g, cs, at, |g.productions|);
    assert cs[..|cs|] == cs;
    MarkedBeforeIsExact(g, |g.productions|);
  }

  /** For each config the symbol it expects, and the start configs it gives rise to. */
  datatype Sheet = Sheet(next: seq<int>, spawn: seq<seq<int>>)

  ghost predicate Spawns(g: Grammar, cs: Configs, c: int, d: int) {
    exists x: int :: Expects(g, cs, c, x) && !g.IsTerminal(x) && Starts(g, cs, d, x)
  }

  ghost predicate IsSheet(g: Grammar, cs: Configs, sh: Sheet) {
    && |sh.next| == |cs| == |sh.spawn|
    && (forall c :: 0 <= c < |cs| ==> sh.next[c] == SymbolAfterDot(g, cs, c))
    && (forall c, d {:trigger Spawns(g, cs, c, d)} {:trigger d in sh.spawn[c]} ::
          0 <= c < |cs| ==> (d in sh.spawn[c] <==> Spawns(g, cs, c, d)))
  }

  /** The symbols that are expected and the configs that start a symbol make a sheet. */
  lemma SheetIs(g: Grammar, cs: Configs, sh: Sheet, starts: seq<seq<int>>)
    requires |sh.next| == |cs| == |sh.spawn| && |starts| == g.nsymbols
    requires forall c :: 0 <= c < |cs| ==> sh.next[c] == SymbolAfterDot(g, cs, c) < g.nsymbols
    requires forall x, d :: 0 <= x < |starts| ==> (d in starts[x] <==> Starts(g, cs, d, x))
    requires forall c :: 0 <= c < |cs| ==>
      sh.spawn[c] == if g.nterminals <= sh.next[c] then starts[sh.next[c]] else []
    ensures IsSheet(g, cs, sh)
  {
    forall c, d | 0 <= c < |cs|
      ensures d in sh.spawn[c] <==> Spawns(g, cs, c, d)
    {
      var x := sh.next[c];
      if d in sh.spawn[c] {
        assert Expects(g, cs, c, x) && !g.IsTerminal(x) && Starts(g, cs, d, x);
      }
    }
  }

  ghost predicate IsSpawned(sh: Sheet, order: seq<int>, i: nat)
    requires i < |order| && forall k :: 0 <= k < |order| ==> 0 <= order[k] < |sh.spawn|
  {
    exists j :: 0 <= j < i && order[i] in sh.spawn[order[j]]
  }

  lemma SpawnedFrom(sh: Sheet, order: seq<int>, i: nat, j: nat)
    requires i < |order| && forall k :: 0 <= k < |order| ==> 0 <= order[k] < |sh.spawn|
    requires j < i && order[i] in sh.spawn[order[j]]
    ensures IsSpawned(sh, order, i)
  {
  }

  /** `order` lists the configs of a closure as they are found: from the kernel, or from an earlier one. */
  ghost predicate IsOrder(sh: Sheet, kernel: set<int>, order: seq<int>) {
    && (forall k :: 0 <= k < |order| ==> 0 <= order[k] < |sh.spawn|)
    && (forall i: nat :: i < |order| ==> order[i] in kernel || IsSpawned(sh, order, i))
    && (forall i, d :: 0 <= i < |order| && d in sh.spawn[order[i]] ==> d in order)
    && (forall k :: k in kernel ==> k in order)
  }

  lemma OrderIsNeeded(
      g: Grammar, cs: Configs, sh: Sheet, kernel: set<int>, order: seq<int>, t: set<int>, i: nat)
    requires IsSheet(g, cs, sh) && IsOrder(sh, kernel, order) && i < |order|
    requires kernel <= t && IsClosed(g, cs, t)
    ensures order[i] in t
    decreases i
  {
    if order[i] !in kernel {
      assert IsSpawned(sh, order, i);
      var j: nat :| j < i && order[i] in sh.spawn[order[j]];
      OrderIsNeeded(g, cs, sh, kernel, order, t, j);
      assert Spawns(g, cs, order[j], order[i]);
      assert IsExpanded(g, cs, t, order[j]);
    }
  }

  lemma ClosureIs(
      g: Grammar, cs: Configs, sh: Sheet, kernel: set<int>, order: seq<int>, items: seq<int>)
    requires IsSheet(g, cs, sh) && IsOrder(sh, kernel, order)
    requires forall c :: c in order <==> c in items
    ensures IsClosure(g, cs, kernel, Elements(items))
  {
    var closure := Elements(items);
    forall k | k in kernel
      ensures k in closure
    {
      assert k in order;
    }
    forall c | c in closure
      ensures IsExpanded(g, cs, closure, c)
    {
      var i :| 0 <= i < |order| && order[i] == c;
      forall d, x: int | Expects(g, cs, c, x) && !g.IsTerminal(x) && Starts(g, cs, d, x)
        ensures d in closure
      {
        assert Spawns(g, cs, c, d);
        assert d in sh.spawn[c];
      }
    }
    forall t | kernel <= t && IsClosed(g, cs, t)
      ensures closure <= t
    {
      forall c | c in closure
        ensures c in t
      {
        var i: nat :| i < |order| && order[i] == c;
        OrderIsNeeded(g, cs, sh, kernel, order, t, i);
      }
    }
  }

  /** A closure found in one step: kernel configs, then what config `k` of these gives rise to. */
  lemma OrderInOneStep(sh: Sheet, kernel: set<int>, first: seq<int>, k: nat, order: seq<int>)
    requires (forall i :: 0 <= i < |first| ==> 0 <= first[i] < |sh.spawn|) && k < |first|
    requires order == first + sh.spawn[first[k]] && forall c :: c in kernel <==> c in first
    requires forall i :: 0 <= i < |first| ==> sh.spawn[first[i]] == [] || sh.spawn[first[i]] == sh.spawn[first[k]]
    requires forall d :: d in sh.spawn[first[k]] ==> 0 <= d < |sh.spawn| && sh.spawn[d] == []
    ensures IsOrder(sh, kernel, order)
  {
    var spawn := sh.spawn[first[k]];
    forall i | 0 <= i < |order|
      ensures 0 <= order[i] < |sh.spawn|
    {
      if |first| <= i {
        assert order[i] == spawn[i - |first|];
        assert order[i] in spawn;
      } else {
        assert order[i] == first[i];
      }
    }
    forall i: nat | i < |order|
      ensures order[i] in kernel || IsSpawned(sh, order, i)
    {
      if |first| <= i {
        assert order[i] == spawn[i - |first|] && order[k] == first[k];
      }
    }
    forall i | |first| <= i < |order|
      ensures sh.spawn[order[i]] == []
    {
      assert order[i] == spawn[i - |first|];
      assert order[i] in spawn;
    }
    forall i, d | 0 <= i < |order| && d in sh.spawn[order[i]]
      ensures d in order
    {
      assert i < |first|;
      assert order[i] == first[i];
      var j :| 0 <= j < |spawn| && spawn[j] == d;
      assert order[|first| + j] == d;
    }
    forall c | c in kernel
      ensures c in order
    {
      var i :| 0 <= i < |first| && first[i] == c;
      assert order[i] == c;
    }
  }

  /** The transition on `x` leads from one state to the other. */
  lemma GotoIs(
      g: Grammar, cs: Configs, sh: Sheet, from: seq<int>, x: int, kernel: set<int>, order: seq<int>, to: seq<int>)
    requires IsSheet(g, cs, sh) && 0 <= x && IsOrder(sh, kernel, order) && kernel != {}
    requires forall c :: c in from ==> 0 <= c < |cs| && (sh.next[c] == x ==> c + 1 in kernel)
    requires forall k :: k in kernel ==> k - 1 in from && sh.next[k - 1] == x
    requires forall c :: c in order <==> c in to
    ensures IsGoto(g, cs, Elements(from), x, Elements(to))
  {
    var after := KernelAfter(g, cs, Elements(from), x);
    forall k | k in kernel
      ensures k in after
    {
      assert k - 1 in Elements(from) && Expects(g, cs, k - 1, x) && (k - 1) + 1 == k;
    }
    assert after <= kernel;
    HasElement(kernel);
    var k :| k in kernel;
    assert k - 1 in Elements(from) && SymbolAfterDot(g, cs, k - 1) == x;
    assert x in TransitionSymbols(g, cs, Elements(from));
    ClosureIs(g, cs, sh, kernel, order, to);
  }

  /** A transition to a state of one config, which gives rise to no other. */
  lemma GotoOne(g: Grammar, cs: Configs, sh: Sheet, from: seq<int>, x: int, c: int)
    requires IsSheet(g, cs, sh) && 0 <= x && c - 1 in from && 0 <= c < |cs| && sh.spawn[c] == []
    requires forall d :: d in from ==> 0 <= d < |cs| && (sh.next[d] == x <==> d == c - 1)
    ensures IsGoto(g, cs, Elements(from), x, Elements([c]))
  {
    GotoIs(g, cs, sh, from, x, {c}, [c], [c]);
  }

  /** One transition for each symbol after a dot. */
  ghost predicate AreGotos(g: Grammar, cs: Configs, items: seq<seq<int>>, s: nat, symbols: seq<int>, targets: seq<nat>)
    requires s < |items|
  {
    && |symbols| == |targets|
    && forall k :: 0 <= k < |symbols| ==>
      targets[k] < |items| && IsGoto(g, cs, Elements(items[s]), symbols[k], Elements(items[targets[k]]))
  }

  ghost function ShiftsTo(symbols: seq<int>, targets: seq<nat>): (shifts: seq<ActionInProgress>)
    requires |symbols| == |targets|
    ensures |shifts| == |symbols|
    ensures forall k :: 0 <= k < |shifts| ==> shifts[k] == ActionInProgress(Shift(targets[k]), {symbols[k]})
  {
    seq(|symbols|, k requires 0 <= k < |symbols| => ActionInProgress(Shift(targets[k]), {symbols[k]}))
  }

  lemma {:induction false} NoReductions(g: Grammar, cs: Configs, sh: Sheet, configs: seq<int>)
    requires IsSheet(g, cs, sh) && forall c :: c in configs ==> 0 <= c < |cs| && sh.next[c] >= 0
    ensures Reductions(g, cs, configs) == []
  {
    if configs != [] {
      var n := |configs| - 1;
      assert configs == configs[..n] + [configs[n]];
      forall c | c in configs[..n]
        ensures c in configs
      {
      }
      NoReductions(g, cs, sh, configs[..n]);
      assert configs[n] in configs;
    }
  }

  /** The last config alone is complete. */
  lemma {:induction false} OneReduction(g: Grammar, cs: Configs, sh: Sheet, before: seq<int>, c: int)
    requires IsSheet(g, cs, sh) && forall d :: d in before ==> 0 <= d < |cs| && sh.next[d] >= 0
    requires IsComplete(g, cs, c)
    ensures Reductions(g, cs, before + [c]) == [ActionInProgress(Reduce(cs[c].production), {})]
  {
    NoReductions(g, cs, sh, before);
    assert (before + [c])[..|before|] == before;
  }

  lemma {:induction false} ActionsAre(
      g: Grammar, cs: Configs, sh: Sheet, items: seq<seq<int>>, s: nat, state: State, symbols: seq<int>,
      targets: seq<nat>)
    requires IsSheet(g, cs, sh) && s < |items| && state.configs == items[s]
    requires AreGotos(g, cs, items, s, symbols, targets)
    requires StrictlyIncreasing(symbols) && AreIndices(cs, items[s])
    requires forall c :: c in items[s] && 0 <= sh.next[c] ==> sh.next[c] in symbols
    requires state.actions == AllInLr0Context(g, ShiftsTo(symbols, targets) + Reductions(g, cs, items[s]))
    ensures HasLr0Actions(g, cs, items, state)
  {
    var from := Elements(items[s]);
    var shifts := ShiftsTo(symbols, targets);
    forall x | x in Elements(symbols)
      ensures x in TransitionSymbols(g, cs, from)
    {
      var k :| 0 <= k < |symbols| && symbols[k] == x;
      assert IsGoto(g, cs, from, symbols[k], Elements(items[targets[k]]));
    }
    forall x | x in TransitionSymbols(g, cs, from)
      ensures x in Elements(symbols)
    {
      var c :| c in from && 0 <= SymbolAfterDot(g, cs, c) && SymbolAfterDot(g, cs, c) == x;
      assert sh.next[c] == x;
    }
    assert AreShifts(g, cs, items, from, symbols, shifts);
    assert ShiftsAreComplete(g, cs, items, from, shifts);
  }

  // ----- addresses -----

  /** The configs of the first `n` states, in order. */
  ghost function Numbered(states: seq<State>, n: nat): (scs: seq<StateConfig>)
    requires n <= |states|
  {
    if n == 0 then []
    else Numbered(states, n - 1) + seq(|states[n - 1].configs|, (k: nat) => StateConfig(n - 1, k))
  }

  lemma {:induction false} NumberedIs(states: seq<State>, n: nat)
    requires n <= |states|
    ensures |Numbered(states, n)| == TotalBefore(states, n)
    ensures forall z :: 0 <= z < |Numbered(states, n)| ==> IsNumbered(states, Numbered(states, n)[z], z)
  {
    if n > 0 {
      NumberedIs(states, n - 1);
    }
  }

  ghost function AddressesOf(states: seq<State>): (states2scs: ParserGraph)
    ensures |states2scs| == |states|
    ensures forall s, k :: 0 <= s < |states| && 0 <= k < |states2scs[s]| ==>
      |states2scs[s]| == |states[s].configs| && states2scs[s][k] == TotalBefore(states, s) + k
  {
    seq(|states|, s requires 0 <= s < |states| => seq(|states[s].configs|, (k: nat) => TotalBefore(states, s) + k))
  }

  lemma {:induction false} AddressesAre(states: seq<State>)
    ensures AddressesMatch(states, Numbered(states, |states|), AddressesOf(states))
  {
    var n := |states|;
    NumberedIs(states, n);
    forall s | 0 <= s < n
      ensures |AddressesOf(states)[s]| == Filled(states, s, |Numbered(states, n)|)
    {
      TotalIsMonotone(states, s, n);
    }
    FilledGraphMatches(states, Numbered(states, n), AddressesOf(states));
  }

  /** The machine with these states. */
  ghost function MachineOf(g: Grammar, cs: Configs, states: seq<State>): ParserInProgress {
    ParserInProgress(g, cs, states, Numbered(states, |states|), AddressesOf(states))
  }

  /** `first[s]` is the address of the first config of state `s`. */
  ghost predicate AreTotals(states: seq<State>, first: seq<nat>) {
    && |first| == |states| + 1 && first[0] == 0
    && forall s {:trigger IsTotal(states, first, s)} :: IsTotal(states, first, s)
  }

  ghost predicate IsTotal(states: seq<State>, first: seq<nat>, s: int) {
    0 <= s < |states| && s + 1 < |first| ==> first[s + 1] == first[s] + |states[s].configs|
  }

  lemma {:induction false} TotalsAre(states: seq<State>, first: seq<nat>, s: nat)
    requires AreTotals(states, first) && s <= |states|
    ensures TotalBefore(states, s) == first[s]
  {
    if s > 0 {
      TotalsAre(states, first, s - 1);
      assert IsTotal(states, first, s - 1);
    }
  }

  /** Config `k` of state `s` has this address. */
  lemma AddressIs(pip: ParserInProgress, first: seq<nat>, s: nat, k: nat) returns (z: nat)
    requires pip == MachineOf(pip.g, pip.cs, pip.states) && AreTotals(pip.states, first)
    requires s < |pip.states| && k < |pip.states[s].configs|
    ensures z == first[s] + k && pip.IsAddress(z) && pip.scs[z] == StateConfig(s, k)
    ensures pip.ConfigAt(z) == pip.states[s].configs[k]
  {
    TotalsAre(pip.states, first, s);
    NumberedIs(pip.states, |pip.states|);
    AddressIsFound(pip.states, pip.scs, s, k);
    z := first[s] + k;
  }

  /** The address of a config of a state is where the config is in the state. */
  lemma AddressHas(pip: ParserInProgress, first: seq<nat>, z: nat)
    requires pip == MachineOf(pip.g, pip.cs, pip.states) && AreTotals(pip.states, first) && pip.IsAddress(z)
    ensures z == first[pip.scs[z].state] + pip.scs[z].configInState
  {
    NumberedIs(pip.states, |pip.states|);
    TotalsAre(pip.states, first, pip.scs[z].state);
    assert IsNumbered(pip.states, pip.scs[z], z);
  }
}
