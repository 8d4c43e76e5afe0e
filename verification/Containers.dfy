/** The containers the parser builder is written with: a `std::set<int>` read out
    in order as a vector, and an adjacency list from nodes to nodes. */
module Containers {

  datatype Option<T> = None | Some(value: T)

  ghost predicate StrictlyIncreasing(v: seq<int>) {
    forall i, j :: 0 <= i < j < |v| ==> v[i] < v[j]
  }

  function Elements<T(==)>(v: seq<T>): set<T> {
    set x | x in v
  }

  predicate IsIndex(n: nat, i: int) {
    0 <= i < n
  }

  ghost function Indices(n: nat): set<int> {
    set i: int | 0 <= i < n && IsIndex(n, i)
  }

  /** A sorted vector without repeats is determined by its elements, which is why states
      may be compared through their config vectors. */
  lemma IncreasingSeqsAreEqual(a: seq<int>, b: seq<int>)
    requires StrictlyIncreasing(a) && StrictlyIncreasing(b)
    requires Elements(a) == Elements(b)
    ensures a == b
  {
    assert forall x :: x in a <==> x in Elements(a);
    assert forall x :: x in b <==> x in Elements(b);
    if a != [] {
      assert a[0] in b && b[0] in a;
      assert a[0] == b[0];
      forall x
        ensures x in Elements(a[1..]) <==> x in Elements(b[1..])
      {
        DropFirst(a, x);
        DropFirst(b, x);
      }
      IncreasingSeqsAreEqual(a[1..], b[1..]);
      assert a == [a[0]] + a[1..] && b == [b[0]] + b[1..];
    } else {
      assert forall i :: 0 <= i < |b| ==> b[i] in Elements(b);
    }
  }

  lemma DropFirst(a: seq<int>, x: int)
    requires StrictlyIncreasing(a) && a != []
    ensures x in a[1..] <==> x in a && x != a[0]
  {
    if x in a && x != a[0] {
      var i :| 0 <= i < |a| && a[i] == x;
      assert a[1..][i - 1] == x;
    }
  }

  lemma EmptySet<T>(s: set<T>)
    requires forall x :: x !in s
    ensures s == {}
  {
  }

  lemma HasElement(s: set<int>)
    ensures s != {} ==> exists x :: x in s
  {
    if forall x :: x !in s {
      EmptySet(s);
    }
  }

  /** Reads a set out in increasing order, as iterating over a `std::set<int>` does. */
  method ToVector(s: set<int>) returns (v: seq<int>)
    ensures StrictlyIncreasing(v)
    ensures Elements(v) == s
    ensures forall x :: x in v <==> x in s
  {
    v := [];
    var rest := s;
    while rest != {}
      invariant StrictlyIncreasing(v)
      invariant forall x :: x in s <==> x in v || x in rest
      invariant forall i, y :: 0 <= i < |v| && y in rest ==> v[i] < y
      decreases |rest|
    {
      var least := Least(rest);
      v := v + [least];
      rest := rest - {least};
    }
    ElementsAre(v, s);
  }

  lemma ElementsAre(v: seq<int>, s: set<int>)
    requires forall x :: x in v <==> x in s
    ensures Elements(v) == s
  {
    forall x | x in s
      ensures x in Elements(v)
    {
    }
    forall x | x in Elements(v)
      ensures x in s
    {
    }
  }

  method Least(s: set<int>) returns (least: int)
    requires s != {}
    ensures least in s
    ensures forall x :: x in s ==> least <= x
  {
    HasElement(s);
    least :| least in s;
    var rest := s - {least};
    while rest != {}
      invariant rest < s
      invariant least in s
      invariant forall x :: x in s && x !in rest ==> least <= x
      decreases |rest|
    {
      HasElement(rest);
      var x :| x in rest;
      if x < least {
        least := x;
      }
      rest := rest - {x};
    }
  }

  /** Adjacency lists: `g[i]` lists the nodes that node `i` has an edge to. */
  type ParserGraph = seq<seq<nat>>

  predicate HasEdge(g: ParserGraph, i: nat, j: nat) {
    i < |g| && j in g[i]
  }

  ghost predicate IsGraph(g: ParserGraph) {
    forall i: nat, j: nat :: HasEdge(g, i, j) ==> j < |g|
  }

  method AddEdge(g: ParserGraph, i: nat, j: nat) returns (out: ParserGraph)
    requires i < |g|
    ensures |out| == |g|
    ensures forall a: nat, b: nat :: HasEdge(out, a, b) <==> HasEdge(g, a, b) || (a == i && b == j)
  {
    out := g[i := g[i] + [j]];
  }

  method EmptyGraph(n: nat) returns (g: ParserGraph)
    ensures |g| == n
    ensures forall a: nat, b: nat :: !HasEdge(g, a, b)
    ensures forall i :: 0 <= i < n ==> g[i] == []
  {
    g := seq(n, _ => []);
  }

  method MakeTranspose(g: ParserGraph) returns (out: ParserGraph)
    requires IsGraph(g)
    ensures |out| == |g|
    ensures forall i: nat, j: nat :: HasEdge(out, j, i) <==> HasEdge(g, i, j)
  {
    out := EmptyGraph(|g|);
    for i := 0 to |g|
      invariant |out| == |g|
      invariant forall a: nat, b: nat :: HasEdge(out, b, a) <==> a < i && HasEdge(g, a, b)
    {
      for k := 0 to |g[i]|
        invariant |out| == |g|
        invariant forall a: nat, b: nat ::
          HasEdge(out, b, a) <==> (a < i && HasEdge(g, a, b)) || (a == i && b in g[i][..k])
      {
        var j := g[i][k];
        assert forall b: nat :: b in g[i][..k + 1] <==> b in g[i][..k] || b == j;
        assert HasEdge(g, i, j);
        out := AddEdge(out, j, i);
      }
      assert g[i][..|g[i]|] == g[i];
    }
  }
}
