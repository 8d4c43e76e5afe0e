/** FIRST sets (`get_first_set_of_string`, `compute_first_sets`): the event queue computes exactly the
    terminals that can lead a string derivable from a symbol, and the null mark exactly for the symbols
    that derive the empty string. */
module FirstSets {
  import opened Containers
  import opened Grammars

  const FIRST_NULL: int := -425

  type FirstSet = set<int>

  // ----- what FIRST means -----

  ghost predicate LeadsWith(form: seq<nat>, x: int) {
    if x == FIRST_NULL then form == [] else form != [] && form[0] == x
  }

  /** `x` is a terminal that leads some form derivable from `str`, or the null mark and `str`
      derives the empty string. */
  ghost predicate InFirst(g: Grammar, str: seq<nat>, x: int) {
    && (x == FIRST_NULL || g.IsTerminal(x))
    && exists ts :: Derives(g, str, ts) && LeadsWith(YieldAll(ts), x)
  }

  ghost predicate Sound(g: Grammar, firstSets: seq<FirstSet>) {
    forall s, x :: 0 <= s < |firstSets| && x in firstSets[s] ==> InFirst(g, [s], x)
  }

  ghost predicate Exact(g: Grammar, firstSets: seq<FirstSet>) {
    && |firstSets| == g.nsymbols
    && forall s, x :: 0 <= s < g.nsymbols ==> (x in firstSets[s] <==> InFirst(g, [s], x))
  }

  // ----- FIRST of a string -----

  ghost predicate InRange(str: seq<nat>, n: nat) {
    forall i :: 0 <= i < |str| ==> str[i] < n
  }

  ghost function FirstOfString(str: seq<nat>, firstSets: seq<FirstSet>): FirstSet
    requires InRange(str, |firstSets|)
  {
    if str == [] then {FIRST_NULL}
    else if FIRST_NULL in firstSets[str[0]]
    then (firstSets[str[0]] - {FIRST_NULL}) + FirstOfString(str[1..], firstSets)
    else firstSets[str[0]]
  }

  method GetFirstSetOfString(str: seq<nat>, firstSets: seq<FirstSet>) returns (out: FirstSet)
    requires InRange(str, |firstSets|)
    ensures out == FirstOfString(str, firstSets)
  {
    out := {};
    var i := 0;
    while i < |str|
      invariant 0 <= i <= |str|
      invariant FirstOfString(str, firstSets) == out + FirstOfString(str[i..], firstSets)
    {
      var firsts := firstSets[str[i]];
      var hasNull := FIRST_NULL in firsts;
      out := out + (firsts - {FIRST_NULL});
      assert str[i..][0] == str[i] && str[i..][1..] == str[i + 1..];
      if !hasNull {
        break;
      }
      i := i + 1;
    }
    if i == |str| {
      out := out + {FIRST_NULL};
    }
  }

  lemma {:induction false} FirstOfStringDependsOnItsSymbols(
      str: seq<nat>, a: seq<FirstSet>, b: seq<FirstSet>)
    requires |a| == |b| && InRange(str, |a|)
    requires forall i :: 0 <= i < |str| ==> a[str[i]] == b[str[i]]
    ensures FirstOfString(str, a) == FirstOfString(str, b)
  {
    if str != [] {
      FirstOfStringDependsOnItsSymbols(str[1..], a, b);
    }
  }

  // ----- soundness of one step -----

  ghost function Opens(str: seq<nat>): seq<Tree> {
    seq(|str|, i requires 0 <= i < |str| => Open(str[i]))
  }

  /** Sets that are sound for symbols give sound sets for strings. */
  lemma {:induction false} FirstOfStringIsSound(
      g: Grammar, str: seq<nat>, firstSets: seq<FirstSet>, x: int)
    requires |firstSets| == g.nsymbols && InRange(str, g.nsymbols)
    requires Sound(g, firstSets)
    requires x in FirstOfString(str, firstSets)
    ensures InFirst(g, str, x)
  {
    if str == [] {
      assert Derives(g, str, []) && LeadsWith(YieldAll([]), x);
    } else {
      var rest := str[1..];
      if x in firstSets[str[0]] && x != FIRST_NULL {
        var head := DerivationOfSymbol(g, str[0], x);
        var ts := [head] + Opens(rest);
        assert Derives(g, str, ts);
        assert ts[1..] == Opens(rest) && YieldAll(ts) == Yield(head) + YieldAll(Opens(rest));
      } else if FIRST_NULL in firstSets[str[0]] {
        FirstOfStringIsSound(g, rest, firstSets, x);
        var head := DerivationOfSymbol(g, str[0], FIRST_NULL);
        var tail :| Derives(g, rest, tail) && LeadsWith(YieldAll(tail), x);
        var ts := [head] + tail;
        assert Derives(g, str, ts);
        assert ts[1..] == tail && YieldAll(ts) == YieldAll(tail);
      }
    }
  }

  lemma DerivationOfSymbol(g: Grammar, s: nat, x: int) returns (t: Tree)
    requires InFirst(g, [s], x)
    ensures IsDerivation(g, t) && Root(g, t) == s && LeadsWith(Yield(t), x)
  {
    var ts :| Derives(g, [s], ts) && LeadsWith(YieldAll(ts), x);
    t := ts[0];
    assert ts[1..] == [];
    assert YieldAll(ts) == Yield(t) + [];
  }

  lemma {:induction false} SingleDerivation(g: Grammar, t: Tree, x: int)
    requires IsDerivation(g, t) && LeadsWith(Yield(t), x)
    requires x == FIRST_NULL || g.IsTerminal(x)
    requires Root(g, t) >= 0
    ensures InFirst(g, [Root(g, t)], x)
  {
    assert Derives(g, [Root(g, t)], [t]);
    assert [t][1..] == [];
    assert YieldAll([t]) == Yield(t) + [];
  }

  lemma {:induction false} ProductionIsSound(g: Grammar, p: nat, firstSets: seq<FirstSet>, x: int)
    requires g.Valid() && p < |g.productions|
    requires |firstSets| == g.nsymbols && Sound(g, firstSets)
    requires x in FirstOfString(g.productions[p].rhs, firstSets)
    ensures InFirst(g, [g.productions[p].lhs], x)
  {
    var rhs := g.productions[p].rhs;
    FirstOfStringIsSound(g, rhs, firstSets, x);
    var ts :| Derives(g, rhs, ts) && LeadsWith(YieldAll(ts), x);
    SingleDerivation(g, Node(p, ts), x);
  }

  lemma TerminalIsSound(g: Grammar, t: nat)
    requires g.Valid() && g.IsTerminal(t)
    ensures InFirst(g, [t], t)
  {
    SingleDerivation(g, Open(t), t);
  }

  // ----- completeness of a fixpoint -----

  /** No production asks for more than its left-hand side has, and every terminal leads itself. */
  ghost predicate Closed(g: Grammar, firstSets: seq<FirstSet>)
    requires g.Valid() && |firstSets| == g.nsymbols
  {
    && (forall t :: g.IsTerminal(t) ==> t in firstSets[t])
    && (forall p :: 0 <= p < |g.productions| ==>
          FirstOfString(g.productions[p].rhs, firstSets) <= firstSets[g.productions[p].lhs])
  }

  lemma {:induction false} ClosedSetsCoverSymbols(g: Grammar, firstSets: seq<FirstSet>, t: Tree, x: int)
    requires g.Valid() && |firstSets| == g.nsymbols && Closed(g, firstSets)
    requires IsDerivation(g, t) && LeadsWith(Yield(t), x)
    requires x == FIRST_NULL || g.IsTerminal(x)
    ensures x in firstSets[Root(g, t)]
    decreases t
  {
    match t
    case Open(_) =>
    case Node(p, children) => ClosedSetsCoverStrings(g, firstSets, g.productions[p].rhs, children, x);
  }

  lemma {:induction false} ClosedSetsCoverStrings(
      g: Grammar, firstSets: seq<FirstSet>, str: seq<nat>, ts: seq<Tree>, x: int)
    requires g.Valid() && |firstSets| == g.nsymbols && Closed(g, firstSets)
    requires InRange(str, g.nsymbols) && Derives(g, str, ts) && LeadsWith(YieldAll(ts), x)
    requires x == FIRST_NULL || g.IsTerminal(x)
    ensures x in FirstOfString(str, firstSets)
    decreases ts
  {
    if ts != [] {
      if Yield(ts[0]) != [] {
        ClosedSetsCoverSymbols(g, firstSets, ts[0], x);
      } else {
        ClosedSetsCoverSymbols(g, firstSets, ts[0], FIRST_NULL);
        ClosedSetsCoverStrings(g, firstSets, str[1..], ts[1..], x);
      }
    }
  }

  lemma ClosedAndSoundIsExact(g: Grammar, firstSets: seq<FirstSet>)
    requires g.Valid() && |firstSets| == g.nsymbols
    requires Closed(g, firstSets) && Sound(g, firstSets)
    ensures Exact(g, firstSets)
  {
    forall s: nat, x | s < g.nsymbols && InFirst(g, [s], x)
      ensures x in firstSets[s]
    {
      var t := DerivationOfSymbol(g, s, x);
      ClosedSetsCoverSymbols(g, firstSets, t, x);
    }
  }

  /** Only itself leads what a terminal derives. */
  lemma TerminalLeadsItself(g: Grammar, t: nat, x: int)
    requires g.Valid() && g.IsTerminal(t)
    ensures InFirst(g, [t], x) <==> x == t
  {
    if InFirst(g, [t], x) {
      var tree := DerivationOfSymbol(g, t, x);
      assert tree == Open(t);
    }
    TerminalIsSound(g, t);
  }

  /** Exact sets for the symbols give the exact set of every string. */
  lemma {:induction false} FirstOfStringIsExact(g: Grammar, firstSets: seq<FirstSet>, str: seq<nat>, x: int)
    requires g.Valid() && Exact(g, firstSets) && InRange(str, g.nsymbols)
    ensures x in FirstOfString(str, firstSets) <==> InFirst(g, str, x)
  {
    if x in FirstOfString(str, firstSets) {
      FirstOfStringIsSound(g, str, firstSets, x);
    }
    if InFirst(g, str, x) {
      forall t | g.IsTerminal(t)
        ensures t in firstSets[t]
      {
        TerminalIsSound(g, t);
      }
      forall p, y | 0 <= p < |g.productions| && y in FirstOfString(g.productions[p].rhs, firstSets)
        ensures y in firstSets[g.productions[p].lhs]
      {
        ProductionIsSound(g, p, firstSets, y);
      }
      var ts :| Derives(g, str, ts) && LeadsWith(YieldAll(ts), x);
      ClosedSetsCoverStrings(g, firstSets, str, ts, x);
    }
  }

  /** The FIRST set of a string that is a terminal. */
  lemma {:induction false} TerminalFollows(g: Grammar, firstSets: seq<set<int>>, t: nat)
    requires g.Valid() && Exact(g, firstSets) && g.IsTerminal(t)
    ensures FirstOfString([t], firstSets) == {t}
  {
    forall x
      ensures x in FirstOfString([t], firstSets) <==> x == t
    {
      FirstOfStringIsExact(g, firstSets, [t], x);
      TerminalLeadsItself(g, t, x);
    }
  }

  lemma {:induction false} NothingFollows(firstSets: seq<set<int>>)
    ensures FirstOfString([], firstSets) == {FIRST_NULL}
  {
  }

  // ----- the event queue -----

  /** `addedSymbol` is to join the FIRST set of `dependee`. */
  datatype Event = Event(addedSymbol: int, dependee: nat)

  ghost function Alphabet(g: Grammar): set<int> {
    {FIRST_NULL} + (set t: int | 0 <= t < g.nterminals && g.IsTerminal(t))
  }

  ghost function Missing(g: Grammar, firstSets: seq<FirstSet>): set<(int, int)> {
    set s, x | 0 <= s < |firstSets| && x in Alphabet(g) && x !in firstSets[s] :: (s, x)
  }

  ghost predicate QueueIsSound(g: Grammar, q: seq<Event>) {
    forall e :: e in q ==> e.dependee < g.nsymbols && InFirst(g, [e.dependee], e.addedSymbol)
  }

  ghost predicate HasOrAwaits(firstSets: seq<FirstSet>, q: seq<Event>, x: int, s: nat)
    requires s < |firstSets|
  {
    x in firstSets[s] || Event(x, s) in q
  }

  /** Whatever production `p` still asks for is waiting in the queue. */
  ghost predicate ProductionServed(g: Grammar, firstSets: seq<FirstSet>, q: seq<Event>, p: nat)
    requires g.Valid() && |firstSets| == g.nsymbols && p < |g.productions|
  {
    forall x :: x in FirstOfString(g.productions[p].rhs, firstSets) ==>
      HasOrAwaits(firstSets, q, x, g.productions[p].lhs)
  }

  ghost predicate WorkInvariant(g: Grammar, firstSets: seq<FirstSet>, q: seq<Event>)
    requires g.Valid()
  {
    && |firstSets| == g.nsymbols
    && Sound(g, firstSets)
    && QueueIsSound(g, q)
    && (forall t :: g.IsTerminal(t) ==> HasOrAwaits(firstSets, q, t, t))
    && (forall p :: 0 <= p < |g.productions| ==> ProductionServed(g, firstSets, q, p))
  }

  method GetProductionsByLhs(g: Grammar) returns (lhs2prods: ParserGraph)
    requires g.Valid()
    ensures |lhs2prods| == g.nsymbols
    ensures forall s: nat, p: nat ::
      HasEdge(lhs2prods, s, p) <==> p < |g.productions| && g.productions[p].lhs == s
  {
    lhs2prods := EmptyGraph(g.nsymbols);
    for i := 0 to |g.productions|
      invariant |lhs2prods| == g.nsymbols
      invariant forall s: nat, p: nat ::
        HasEdge(lhs2prods, s, p) <==> p < i && g.productions[p].lhs == s
    {
      lhs2prods := AddEdge(lhs2prods, g.productions[i].lhs, i);
    }
  }

  /** `a` depends on `b` when `b` occurs on the right of a production of `a`. */
  ghost predicate DependsOn(g: Grammar, a: nat, b: nat) {
    exists p :: 0 <= p < |g.productions| && g.productions[p].lhs == a && b in g.productions[p].rhs
  }

  method GetSymbolGraph(g: Grammar, lhs2prods: ParserGraph) returns (out: ParserGraph)
    requires g.Valid() && |lhs2prods| == g.nsymbols
    requires forall s: nat, p: nat ::
      HasEdge(lhs2prods, s, p) <==> p < |g.productions| && g.productions[p].lhs == s
    ensures |out| == g.nsymbols && IsGraph(out)
    ensures forall a: nat, b: nat :: HasEdge(out, a, b) <==> DependsOn(g, a, b)
  {
    out := EmptyGraph(g.nsymbols);
    for lhs := 0 to g.nsymbols
      invariant |out| == g.nsymbols
      invariant forall a: nat, b: nat :: HasEdge(out, a, b) <==> a < lhs && DependsOn(g, a, b)
    {
      var dependees: set<int> := {};
      var prods := lhs2prods[lhs];
      for i := 0 to |prods|
        invariant forall k :: 0 <= k < |prods| ==> HasEdge(lhs2prods, lhs, prods[k])
        invariant forall b :: b in dependees <==>
          exists k :: 0 <= k < i && b in g.productions[prods[k]].rhs
        invariant forall b :: b in dependees ==> 0 <= b < g.nsymbols
      {
        assert HasEdge(lhs2prods, lhs, prods[i]);
        dependees := dependees + set s | s in g.productions[prods[i]].rhs;
      }
      var v := ToVector(dependees);
      assert forall k :: 0 <= k < |v| ==> v[k] in v;
      out := AssignEdges(out, lhs, v);
      forall b: nat
        ensures b in dependees <==> DependsOn(g, lhs, b)
      {
        if DependsOn(g, lhs, b) {
          var p: nat :| p < |g.productions| && g.productions[p].lhs == lhs && b in g.productions[p].rhs;
          assert HasEdge(lhs2prods, lhs, p);
        }
      }
    }
  }

  method AssignEdges(g: ParserGraph, i: nat, v: seq<int>) returns (out: ParserGraph)
    requires i < |g| && forall k :: 0 <= k < |v| ==> 0 <= v[k]
    ensures |out| == |g|
    ensures forall a: nat, b: nat :: HasEdge(out, a, b) <==> if a == i then b in v else HasEdge(g, a, b)
  {
    var edges: seq<nat> := v;
    out := g[i := edges];
  }

  ghost predicate IsLhsGraph(g: Grammar, lhs2prods: ParserGraph) {
    && |lhs2prods| == g.nsymbols
    && forall s: nat, p: nat ::
         HasEdge(lhs2prods, s, p) <==> p < |g.productions| && g.productions[p].lhs == s
  }

  /** A terminal leads itself; a nonterminal with an empty production derives null. */
  method InitialEvents(g: Grammar, lhs2prods: ParserGraph) returns (q: seq<Event>)
    requires g.Valid() && IsLhsGraph(g, lhs2prods)
    ensures WorkInvariant(g, seq(g.nsymbols, _ => {}), q)
  {
    hide InFirst;
    q := [];
    for symbol := 0 to g.nsymbols
      invariant QueueIsSound(g, q)
      invariant forall t :: 0 <= t < symbol && g.IsTerminal(t) ==> Event(t, t) in q
      invariant forall p ::
        0 <= p < |g.productions| && g.productions[p].lhs < symbol && g.productions[p].rhs == []
        ==> Event(FIRST_NULL, g.productions[p].lhs) in q
    {
      if g.IsTerminal(symbol) {
        TerminalIsSound(g, symbol);
        q := q + [Event(symbol, symbol)];
      } else {
        var prods := lhs2prods[symbol];
        var i := 0;
        while i < |prods|
          invariant 0 <= i <= |prods|
          invariant forall k ::
            0 <= k < i ==> HasEdge(lhs2prods, symbol, prods[k]) && g.productions[prods[k]].rhs != []
        {
          assert HasEdge(lhs2prods, symbol, prods[i]);
          if g.productions[prods[i]].rhs == [] {
            SingleDerivation(g, Node(prods[i], []), FIRST_NULL);
            q := q + [Event(FIRST_NULL, symbol)];
            break;
          }
          i := i + 1;
        }
        forall p: nat | p < |g.productions| && g.productions[p].lhs == symbol && g.productions[p].rhs == []
          ensures Event(FIRST_NULL, symbol) in q
        {
          assert HasEdge(lhs2prods, symbol, p);
          var k :| 0 <= k < |prods| && prods[k] == p;
        }
      }
    }
  }

  method EnqueueMissing(rhsFirst: FirstSet, dependerFirsts: FirstSet, depender: nat, q: seq<Event>)
    returns (out: seq<Event>)
    ensures q <= out
    ensures forall e :: e in out ==> e in q || (e.dependee == depender && e.addedSymbol in rhsFirst)
    ensures forall x :: x in rhsFirst ==> x in dependerFirsts || Event(x, depender) in out
  {
    out := q;
    var rest := rhsFirst;
    while rest != {}
      invariant rest <= rhsFirst && q <= out
      invariant forall e :: e in out ==> e in q || (e.dependee == depender && e.addedSymbol in rhsFirst)
      invariant forall x :: x in rhsFirst && x !in rest ==> x in dependerFirsts || Event(x, depender) in out
      decreases |rest|
    {
      HasElement(rest);
      var x :| x in rest;
      if x !in dependerFirsts {
        out := out + [Event(x, depender)];
      }
      rest := rest - {x};
    }
  }

  /** Serves every production of `depender` again. */
  method ServeDepender(g: Grammar, lhs2prods: ParserGraph, firstSets: seq<FirstSet>,
                       depender: nat, q: seq<Event>) returns (out: seq<Event>)
    requires g.Valid() && IsLhsGraph(g, lhs2prods)
    requires |firstSets| == g.nsymbols && depender < g.nsymbols
    requires Sound(g, firstSets) && QueueIsSound(g, q)
    ensures q <= out && QueueIsSound(g, out)
    ensures forall p :: 0 <= p < |g.productions| && g.productions[p].lhs == depender ==>
              ProductionServed(g, firstSets, out, p)
  {
    out := q;
    var prods := lhs2prods[depender];
    for i := 0 to |prods|
      invariant q <= out && QueueIsSound(g, out)
      invariant forall k :: 0 <= k < |prods| ==> HasEdge(lhs2prods, depender, prods[k])
      invariant forall k :: 0 <= k < i ==> ProductionServed(g, firstSets, out, prods[k])
    {
      var p := prods[i];
      assert HasEdge(lhs2prods, depender, p);
      var rhsFirst := GetFirstSetOfString(g.productions[p].rhs, firstSets);
      forall x | x in rhsFirst
        ensures InFirst(g, [depender], x)
      {
        ProductionIsSound(g, p, firstSets, x);
      }
      var before := out;
      out := EnqueueMissing(rhsFirst, firstSets[depender], depender, out);
      forall k | 0 <= k < i
        ensures ProductionServed(g, firstSets, out, prods[k])
      {
        assert ProductionServed(g, firstSets, before, prods[k]);
      }
    }
    forall p | 0 <= p < |g.productions| && g.productions[p].lhs == depender
      ensures ProductionServed(g, firstSets, out, p)
    {
      assert HasEdge(lhs2prods, depender, p);
    }
  }

  lemma LongerQueueStillServes(
      g: Grammar, firstSets: seq<FirstSet>, q: seq<Event>, longer: seq<Event>)
    requires g.Valid() && |firstSets| == g.nsymbols && q <= longer
    ensures forall p :: 0 <= p < |g.productions| && ProductionServed(g, firstSets, q, p)
              ==> ProductionServed(g, firstSets, longer, p)
  {
    forall x, s: nat | s < g.nsymbols && HasOrAwaits(firstSets, q, x, s)
      ensures HasOrAwaits(firstSets, longer, x, s)
    {
    }
  }

  ghost function Added(firstSets: seq<FirstSet>, event: Event): seq<FirstSet>
    requires event.dependee < |firstSets|
  {
    firstSets[event.dependee := firstSets[event.dependee] + {event.addedSymbol}]
  }

  lemma AddingPresentChangesNothing(firstSets: seq<FirstSet>, event: Event)
    requires event.dependee < |firstSets|
    ensures event.addedSymbol in firstSets[event.dependee] ==> Added(firstSets, event) == firstSets
  {
    if event.addedSymbol in firstSets[event.dependee] {
      assert firstSets[event.dependee] + {event.addedSymbol} == firstSets[event.dependee];
    }
  }

  /** Dropping an event that is already satisfied, or satisfying it and serving again every
      production its symbol occurs in, keeps the invariant. */
  lemma EventKeepsInvariant(
      g: Grammar, before: seq<FirstSet>, event: Event, rest: seq<Event>, q: seq<Event>)
    requires g.Valid() && WorkInvariant(g, before, [event] + rest)
    requires rest <= q && QueueIsSound(g, q)
    requires event.dependee < g.nsymbols
    requires event.addedSymbol in before[event.dependee] ||
             forall p :: 0 <= p < |g.productions| && event.dependee in g.productions[p].rhs
               ==> ProductionServed(g, Added(before, event), q, p)
    ensures WorkInvariant(g, Added(before, event), q)
  {
    var after := Added(before, event);
    assert event in [event] + rest;
    forall x, s: nat | s < g.nsymbols && HasOrAwaits(before, [event] + rest, x, s)
      ensures HasOrAwaits(after, q, x, s)
    {
    }
    AddingPresentChangesNothing(before, event);
    forall p | 0 <= p < |g.productions|
      ensures ProductionServed(g, after, q, p)
    {
      var rhs := g.productions[p].rhs;
      if event.dependee !in rhs || event.addedSymbol in before[event.dependee] {
        FirstOfStringDependsOnItsSymbols(rhs, before, after);
        assert ProductionServed(g, before, [event] + rest, p);
      }
    }
  }

  lemma AddingShrinksMissing(g: Grammar, before: seq<FirstSet>, event: Event)
    requires event.dependee < |before|
    requires event.addedSymbol in Alphabet(g) && event.addedSymbol !in before[event.dependee]
    ensures Missing(g, Added(before, event)) < Missing(g, before)
  {
    var pair: (int, int) := (event.dependee, event.addedSymbol);
    assert pair in Missing(g, before) && pair !in Missing(g, Added(before, event));
  }

  ghost predicate IsDependerGraph(g: Grammar, dependees2dependers: ParserGraph) {
    && |dependees2dependers| == g.nsymbols
    && forall a: nat, b: nat :: HasEdge(dependees2dependers, b, a) <==> DependsOn(g, a, b)
  }

  /** Serves every production that `dependee` occurs in. */
  method ServeDependers(g: Grammar, lhs2prods: ParserGraph, dependees2dependers: ParserGraph,
                        firstSets: seq<FirstSet>, dependee: nat, q: seq<Event>) returns (out: seq<Event>)
    requires g.Valid() && IsLhsGraph(g, lhs2prods) && IsDependerGraph(g, dependees2dependers)
    requires |firstSets| == g.nsymbols && dependee < g.nsymbols
    requires Sound(g, firstSets) && QueueIsSound(g, q)
    ensures q <= out && QueueIsSound(g, out)
    ensures forall p :: 0 <= p < |g.productions| && dependee in g.productions[p].rhs ==>
      ProductionServed(g, firstSets, out, p)
  {
    out := q;
    var dependers := dependees2dependers[dependee];
    for i := 0 to |dependers|
      invariant q <= out && QueueIsSound(g, out)
      invariant forall k, p ::
        0 <= k < i && 0 <= p < |g.productions| && g.productions[p].lhs == dependers[k]
        ==> ProductionServed(g, firstSets, out, p)
    {
      ghost var shorter := out;
      assert HasEdge(dependees2dependers, dependee, dependers[i]);
      out := ServeDepender(g, lhs2prods, firstSets, dependers[i], out);
      LongerQueueStillServes(g, firstSets, shorter, out);
    }
    forall p | 0 <= p < |g.productions| && dependee in g.productions[p].rhs
      ensures ProductionServed(g, firstSets, out, p)
    {
      assert DependsOn(g, g.productions[p].lhs, dependee);
      assert HasEdge(dependees2dependers, dependee, g.productions[p].lhs);
    }
  }

  lemma EmptyQueueMeansClosed(g: Grammar, firstSets: seq<FirstSet>)
    requires g.Valid() && WorkInvariant(g, firstSets, [])
    ensures Closed(g, firstSets)
  {
    forall p, x | 0 <= p < |g.productions| && x in FirstOfString(g.productions[p].rhs, firstSets)
      ensures x in firstSets[g.productions[p].lhs]
    {
      assert ProductionServed(g, firstSets, [], p);
      assert HasOrAwaits(firstSets, [], x, g.productions[p].lhs);
    }
    forall t | g.IsTerminal(t)
      ensures t in firstSets[t]
    {
      assert HasOrAwaits(firstSets, [], t, t);
    }
  }

  /** The whole construction: the result is exact. Each turn of the loop either adds a missing
      (symbol, mark) pair or shortens the queue. */
  method ComputeFirstSets(g: Grammar) returns (firstSets: seq<FirstSet>)
    requires g.Valid()
    ensures Exact(g, firstSets)
  {
    firstSets := seq(g.nsymbols, _ => {});
    var lhs2prods := GetProductionsByLhs(g);
    var q := InitialEvents(g, lhs2prods);
    var dependers2dependees := GetSymbolGraph(g, lhs2prods);
    var dependees2dependers := MakeTranspose(dependers2dependees);
    while q != []
      invariant WorkInvariant(g, firstSets, q)
      decreases Missing(g, firstSets), |q|
    {
      var event, rest := q[0], q[1..];
      assert q == [event] + rest && event in q;
      if event.addedSymbol in firstSets[event.dependee] {
        EventKeepsInvariant(g, firstSets, event, rest, rest);
        AddingPresentChangesNothing(firstSets, event);
        q := rest;
        continue;
      }
      ghost var before := firstSets;
      AddingShrinksMissing(g, before, event);
      firstSets := firstSets[event.dependee := firstSets[event.dependee] + {event.addedSymbol}];
      q := ServeDependers(g, lhs2prods, dependees2dependers, firstSets, event.dependee, rest);
      EventKeepsInvariant(g, before, event, rest, q);
    }
    EmptyQueueMeansClosed(g, firstSets);
    ClosedAndSoundIsExact(g, firstSets);
  }
}
