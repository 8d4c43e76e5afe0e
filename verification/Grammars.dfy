/** Grammars as the parser builder receives them: terminals numbered first, nonterminals
    after, and an accept production added last. */
module Grammars {

  datatype Production = Production(lhs: nat, rhs: seq<nat>)

  datatype Grammar = Grammar(nsymbols: nat, nterminals: nat, productions: seq<Production>) {

    ghost predicate Valid() {
      && 0 < nterminals < nsymbols
      && productions != []
      && (forall p :: 0 <= p < |productions| ==> nterminals <= productions[p].lhs < nsymbols)
      && (forall p, i :: 0 <= p < |productions| && 0 <= i < |productions[p].rhs| ==>
            productions[p].rhs[i] < nsymbols)
    }

    /** What `add_end_terminal` and `add_accept_production` leave behind: the accept symbol has the
        last production and no other, and never occurs on a right-hand side. */
    ghost predicate HasAccept() {
      && Valid()
      && (forall p :: 0 <= p < |productions| ==>
            (productions[p].lhs == AcceptNonterminal() <==> p == AcceptProduction()))
      && (forall p, i :: 0 <= p < |productions| && 0 <= i < |productions[p].rhs| ==>
            productions[p].rhs[i] != AcceptNonterminal())
    }

    predicate IsTerminal(symbol: int) {
      0 <= symbol < nterminals
    }

    function EndTerminal(): int {
      nterminals - 1
    }

    function AcceptProduction(): int {
      |productions| - 1
    }

    function AcceptNonterminal(): int {
      nsymbols - 1
    }
  }

  /** A partial derivation: an `Open` leaf is a symbol not expanded any further. */
  datatype Tree = Open(symbol: nat) | Node(prod: nat, children: seq<Tree>)

  ghost function Root(g: Grammar, t: Tree): int {
    match t
    case Open(s) => s
    case Node(p, _) => if p < |g.productions| then g.productions[p].lhs else -1
  }

  ghost predicate IsDerivation(g: Grammar, t: Tree) {
    match t
    case Open(s) => s < g.nsymbols
    case Node(p, children) =>
      && p < |g.productions|
      && |children| == |g.productions[p].rhs|
      && forall i :: 0 <= i < |children| ==>
           IsDerivation(g, children[i]) && Root(g, children[i]) == g.productions[p].rhs[i]
  }

  /** One derivation for each symbol of a string. */
  ghost predicate Derives(g: Grammar, str: seq<nat>, ts: seq<Tree>) {
    && |ts| == |str|
    && forall i :: 0 <= i < |ts| ==> IsDerivation(g, ts[i]) && Root(g, ts[i]) == str[i]
  }

  /** The sentential form a derivation ends in. */
  ghost function Yield(t: Tree): seq<nat> {
    match t
    case Open(s) => [s]
    case Node(_, children) => YieldAll(children)
  }

  ghost function YieldAll(ts: seq<Tree>): seq<nat> {
    if ts == [] then [] else Yield(ts[0]) + YieldAll(ts[1..])
  }
}
