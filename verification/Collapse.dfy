/** Collapsing the edges of a mesh as a whole (`coarsen_ghosted`, `coarsen_element_based2`): from the edges that may
    collapse, and an independent set of vertices, to the new entities. */
module Collapse {
  import opened Align
  import opened Canonical
  import opened Coarsening
  import opened Inversion
  import opened LiveEntities
  import opened Rails

  ghost predicate IsCandidate(m: EdgeMesh, c: Cands, v: nat) {
    exists ve: nat :: IsPermitted(m, c, v, ve)
  }

  ghost predicate IsChosen(marks: seq<bool>, v: int) {
    0 <= v < |marks| && marks[v]
  }

  /** What the search for an independent set leaves marked: candidates, no two of them joined by an edge. */
  ghost predicate IsIndependent(m: EdgeMesh, c: Cands, marks: seq<bool>) {
    && |marks| == m.nv
    && (forall v: nat {:trigger IsChosen(marks, v)} :: IsChosen(marks, v) ==> IsCandidate(m, c, v))
    && forall e :: 0 <= e < |m.edges| ==>
      |m.edges[e]| == 2 && !(IsChosen(marks, m.edges[e][0]) && IsChosen(marks, m.edges[e][1]))
  }

  /** The new vertex numbers, for the vertices that were not chosen. */
  ghost predicate Renumbers(marks: seq<bool>, old2new: seq<int>) {
    && |old2new| == |marks|
    && (forall v: nat :: v < |marks| && !marks[v] ==> old2new[v] >= 0)
    && (forall u: nat, v: nat :: u < v < |marks| && !marks[u] && !marks[v] ==> old2new[u] != old2new[v])
  }

  /** The keys: the chosen vertices, in order. */
  ghost predicate AreChosen(marks: seq<bool>, keys: seq<nat>) {
    && (forall i, j :: 0 <= i < j < |keys| ==> keys[i] < keys[j])
    && forall v: int {:trigger IsChosen(marks, v)} :: IsChosen(marks, v) <==> IsKey(keys, v)
  }

  /** The rails of all keys. */
  ghost predicate AreRails(m: EdgeMesh, c: Cands, keys: seq<nat>, rails: RailSet) {
    && |rails.edges| == |keys| == |rails.dirs|
    && forall k :: 0 <= k < |keys| ==> IsRailOf(m, c, keys[k], rails.edges[k], rails.dirs[k])
  }

  lemma CandidateIsTold(m: EdgeMesh, c: Cands, ch: Choices, v: nat)
    requires m.Valid() && AreChoices(m, c, ch, m.nv) && v < m.nv && IsCandidate(m, c, v)
    ensures ch.areCands[v]
  {
    assert IsChoice(m, c, v, ch.areCands[v], ch.quals[v], ch.rails[v]);
    var ve: nat :| IsPermitted(m, c, v, ve);
    assert ve < m.v2e.a2ab[v + 1];
  }

  /** Rails of an independent set are what the marking of dead entities asks for. */
  lemma RailsServeKeys(m: EdgeMesh, c: Cands, marks: seq<bool>, keys: seq<nat>, rails: RailSet)
    requires IsIndependent(m, c, marks) && AreChosen(marks, keys) && AreRails(m, c, keys, rails)
    ensures AreKeys(m.edges, keys, rails)
  {
    forall k | 0 <= k < |keys|
      ensures rails.edges[k] < |m.edges| && |m.edges[rails.edges[k]]| == 2 && rails.dirs[k] < 2
      ensures m.edges[rails.edges[k]][rails.dirs[k]] == keys[k]
    {
      assert IsRailOf(m, c, keys[k], rails.edges[k], rails.dirs[k]);
    }
    forall e | 0 <= e < |m.edges|
      ensures |m.edges[e]| == 2 && !(IsKey(keys, m.edges[e][0]) && IsKey(keys, m.edges[e][1]))
    {
      assert IsChosen(marks, m.edges[e][0]) <==> IsKey(keys, m.edges[e][0]);
      assert IsChosen(marks, m.edges[e][1]) <==> IsKey(keys, m.edges[e][1]);
    }
  }

  lemma ChosenAreRenumbered(marks: seq<bool>, keys: seq<nat>, old2new: seq<int>)
    requires AreChosen(marks, keys) && Renumbers(marks, old2new)
    ensures IsRenumbering(|marks|, keys, old2new)
  {
    forall v: nat | v < |marks|
      ensures marks[v] <==> IsKey(keys, v)
    {
      assert IsChosen(marks, v) <==> IsKey(keys, v);
    }
    forall u: nat, v: nat | u < |marks| && v < |marks| && u != v && !IsKey(keys, u) && !IsKey(keys, v)
      ensures old2new[u] != old2new[v]
    {
      assert !marks[u] && !marks[v];
    }
  }

  /** The rails of the chosen vertices: chosen for every vertex, and found again for these. */
  method FindKeysAndRails(m: EdgeMesh, c: Cands, marks: seq<bool>) returns (keys: seq<nat>, rails: RailSet)
    requires m.Valid() && m.HasUniqueGlobals() && c.Valid(|m.edges|) && IsIndependent(m, c, marks)
    ensures AreChosen(marks, keys) && AreRails(m, c, keys, rails) && AreKeys(m.edges, keys, rails)
  {
    var ch := ChooseRails(m, c);
    keys := CollectMarked(marks);
    forall k | 0 <= k < |keys|
      ensures keys[k] < m.nv && ch.areCands[keys[k]]
    {
      assert IsChosen(marks, keys[k]);
      CandidateIsTold(m, c, ch, keys[k]);
    }
    var edges, dirs := FindRails(m, c, keys, ch);
    rails := RailSet(edges, dirs);
    forall v: int
      ensures IsChosen(marks, v) <==> IsKey(keys, v)
    {
      if IsChosen(marks, v) {
        assert v in keys;
      }
    }
    RailsServeKeys(m, c, marks, keys, rails);
  }

  /** What replaces the entities of one dimension: for each key its live entities, and what is built of each. */
  ghost predicate IsReplaced(nv: nat, edges: seq<Verts>, layers: seq<Layer>, keys: seq<nat>, rails: RailSet,
      old2new: seq<int>, dead: seq<seq<bool>>, d: Dim, doms: seq<seq<(nat, nat)>>, prods: seq<seq<Verts>>)
    requires rails.Valid(edges) && |rails.edges| == |keys|
  {
    && d <= |layers| && d <= |dead| && |doms| == |keys| == |prods|
    && forall k :: 0 <= k < |keys| ==>
      && AreDomains(layers[d - 1], d, keys[k], dead[d - 1], doms[k])
      && AreProducts(layers[d - 1], d, nv, keys, old2new, Onto(edges, rails, k), doms[k], prods[k])
  }

  method CoarsenDimension(nv: nat, edges: seq<Verts>, layers: seq<Layer>, keys: seq<nat>, rails: RailSet,
      dead: seq<seq<bool>>, old2new: seq<int>, d: Dim)
    returns (doms: seq<seq<(nat, nat)>>, prods: seq<seq<Verts>>)
    requires IsComplex(nv, edges, layers) && AreKeys(edges, keys, rails) && d <= |layers|
    requires HasMarks(layers, dead) && IsRenumbering(nv, keys, old2new) && MarksTheDead(layers, edges, rails, dead, d)
    ensures IsReplaced(nv, edges, layers, keys, rails, old2new, dead, d, doms, prods)
  {
    doms, prods := [], [];
    for k := 0 to |keys|
      invariant |doms| == k == |prods|
      invariant forall l :: 0 <= l < k ==>
        && AreDomains(layers[d - 1], d, keys[l], dead[d - 1], doms[l])
        && AreProducts(layers[d - 1], d, nv, keys, old2new, Onto(edges, rails, l), doms[l], prods[l])
    {
      var keyDoms, keyProds := CoarsenTopology(nv, edges, layers, keys, rails, d, k, dead, old2new);
      doms, prods := doms + [keyDoms], prods + [keyProds];
    }
  }

  /** No entity is replaced twice: it has one key at most. */
  lemma ReplacedOnce(nv: nat, edges: seq<Verts>, layers: seq<Layer>, keys: seq<nat>, rails: RailSet,
      old2new: seq<int>, dead: seq<seq<bool>>, d: Dim, doms: seq<seq<(nat, nat)>>, prods: seq<seq<Verts>>,
      k: nat, x: nat, l: nat, y: nat)
    requires IsComplex(nv, edges, layers) && AreKeys(edges, keys, rails)
    requires forall i, j :: 0 <= i < j < |keys| ==> keys[i] < keys[j]
    requires IsReplaced(nv, edges, layers, keys, rails, old2new, dead, d, doms, prods)
    requires k < |keys| && x < |doms[k]| && l < |keys| && y < |doms[l]| && doms[k][x].0 == doms[l][y].0
    ensures k == l && x == y
  {
    var dom, dom' := doms[k][x], doms[l][y];
    assert IsDomain(layers[d - 1], d, keys[k], dead[d - 1], dom);
    assert IsDomain(layers[d - 1], d, keys[l], dead[d - 1], dom');
    assert IsKey(keys, keys[l]);
    if dom.1 != dom'.1 {
      OthersAreNoKeys(nv, edges, layers, keys, rails, d, k, dom.0, dom.1, dom'.1);
    }
    assert k == l by {
      assert keys[k] == keys[l];
    }
  }

  /** Every live entity of a key is replaced. */
  lemma LiveIsReplaced(
      nv: nat, edges: seq<Verts>, layers: seq<Layer>, keys: seq<nat>, rails: RailSet,
      old2new: seq<int>, dead: seq<seq<bool>>, d: Dim, doms: seq<seq<(nat, nat)>>, prods: seq<seq<Verts>>,
      k: nat, e: nat)
    returns (x: nat)
    requires rails.Valid(edges) && |rails.edges| == |keys|
    requires IsReplaced(nv, edges, layers, keys, rails, old2new, dead, d, doms, prods)
    requires k < |keys| && e < |dead[d - 1]| && !dead[d - 1][e] && HasVert(layers[d - 1], e, keys[k])
    ensures x < |doms[k]| && doms[k][x].0 == e
  {
    assert AreDomains(layers[d - 1], d, keys[k], dead[d - 1], doms[k]);
    var i :| 0 <= i < |doms[k]| && doms[k][i].0 == e;
    x := i;
  }

  ghost predicate IsReplacedIn(m: EdgeMesh, layers: seq<Layer>, keys: seq<nat>, rails: RailSet, old2new: seq<int>,
      dead: seq<seq<bool>>, d: Dim, doms: seq<seq<seq<(nat, nat)>>>, prods: seq<seq<seq<Verts>>>)
    requires rails.Valid(m.edges) && |rails.edges| == |keys|
  {
    d <= |doms| && d <= |prods|
    && IsReplaced(m.nv, m.edges, layers, keys, rails, old2new, dead, d, doms[d - 1], prods[d - 1])
  }

  /** In one dimension: the marks say by vertices what dies, and the products of each key are new entities, as far as
      the link condition holds. */
  ghost predicate IsSoundIn(m: EdgeMesh, layers: seq<Layer>, keys: seq<nat>, rails: RailSet, old2new: seq<int>,
      dead: seq<seq<bool>>, d: Dim, prods: seq<seq<seq<Verts>>>)
    requires rails.Valid(m.edges) && |rails.edges| == |keys|
  {
    && MarksByVerts(layers, m.edges, rails, dead, d) && d <= |prods| && |prods[d - 1]| == |keys|
    && var newProds := prods[d - 1];
       forall k :: 0 <= k < |keys| ==> AreFresh(layers, m.edges, keys, rails, old2new, dead, d, k, newProds[k])
  }

  lemma DimensionIsSound(m: EdgeMesh, layers: seq<Layer>, marks: seq<bool>, keys: seq<nat>, rails: RailSet,
      old2new: seq<int>, dead: seq<seq<bool>>, d: Dim, doms: seq<seq<seq<(nat, nat)>>>, prods: seq<seq<seq<Verts>>>)
    requires IsComplex(m.nv, m.edges, layers) && HasItsSides(layers) && HasNoTwins(layers) && d <= |layers|
    requires AreChosen(marks, keys) && AreKeys(m.edges, keys, rails) && IsRenumbering(m.nv, keys, old2new)
    requires HasMarks(layers, dead) && MarksTheDead(layers, m.edges, rails, dead, d)
    requires IsReplacedIn(m, layers, keys, rails, old2new, dead, d, doms, prods)
    ensures IsSoundIn(m, layers, keys, rails, old2new, dead, d, prods)
  {
    hide HasItsSides, HasNoTwins, IsComplex, MarksTheDead, IsRenumbering, AreDomains, AreProducts, AreFresh,
      MarksByVerts;
    MarksAreByVerts(m.nv, m.edges, layers, rails, dead, d);
    assert IsMarkedComplex(m.nv, m.edges, layers, keys, rails, dead, d);
    var newDoms, newProds := doms[d - 1], prods[d - 1];
    forall k | 0 <= k < |keys|
      ensures AreFresh(layers, m.edges, keys, rails, old2new, dead, d, k, newProds[k])
    {
      ProductsAreFresh(m.nv, m.edges, layers, keys, rails, old2new, dead, d, k, newDoms[k], newProds[k]);
    }
  }

  /** The whole collapse: the rails are the best permitted edges of the chosen vertices; what has a rail or is left
      behind by a cell that has one is dead, and nothing else; and what replaces the live entities of a key never
      repeats a vertex and never has a chosen one. */
  method CollapseEdges(m: EdgeMesh, c: Cands, layers: seq<Layer>, marks: seq<bool>, old2new: seq<int>)
    returns (keys: seq<nat>, rails: RailSet, dead: seq<seq<bool>>, doms: seq<seq<seq<(nat, nat)>>>,
      prods: seq<seq<seq<Verts>>>)
    requires m.Valid() && m.HasUniqueGlobals() && c.Valid(|m.edges|) && IsComplex(m.nv, m.edges, layers)
    requires IsIndependent(m, c, marks) && Renumbers(marks, old2new)
    ensures AreChosen(marks, keys) && AreRails(m, c, keys, rails) && AreKeys(m.edges, keys, rails)
    ensures HasMarks(layers, dead) && forall d: Dim :: d <= |layers| ==> MarksTheDead(layers, m.edges, rails, dead, d)
    ensures |doms| == |layers| == |prods|
    ensures forall d: Dim :: d <= |layers| ==> IsReplacedIn(m, layers, keys, rails, old2new, dead, d, doms, prods)
    ensures HasItsSides(layers) && HasNoTwins(layers) ==>
      forall d: Dim :: d <= |layers| ==> IsSoundIn(m, layers, keys, rails, old2new, dead, d, prods)
  {
    keys, rails := FindKeysAndRails(m, c, marks);
    dead := MarkAllDead(m.nv, m.edges, layers, rails);
    ChosenAreRenumbered(marks, keys, old2new);
    doms, prods := [], [];
    for i := 0 to |layers|
      invariant |doms| == i == |prods|
      invariant forall d: Dim :: d <= i ==> IsReplacedIn(m, layers, keys, rails, old2new, dead, d, doms, prods)
    {
      var newDoms, newProds := CoarsenDimension(m.nv, m.edges, layers, keys, rails, dead, old2new, i + 1);
      ghost var wasDoms, wasProds := doms, prods;
      doms, prods := doms + [newDoms], prods + [newProds];
      forall d: Dim | d <= i + 1
        ensures IsReplacedIn(m, layers, keys, rails, old2new, dead, d, doms, prods)
      {
        assert d <= i ==> IsReplacedIn(m, layers, keys, rails, old2new, dead, d, wasDoms, wasProds);
      }
    }
    if HasItsSides(layers) && HasNoTwins(layers) {
      forall d: Dim | d <= |layers|
        ensures IsSoundIn(m, layers, keys, rails, old2new, dead, d, prods)
      {
        DimensionIsSound(m, layers, marks, keys, rails, old2new, dead, d, doms, prods);
      }
    }
  }
}
