/** What dies in a collapse, and whether what is built instead is there already, told by vertices alone: no local
    numbers of sides or edges are used. */
module LiveEntities {
  import opened Align
  import opened Canonical
  import opened Coarsening

  ghost function VertSet(cell: Verts): set<int> {
    set v | v in cell
  }

  /** The sides of a cell are the entities of the lower dimension with their vertices. */
  ghost predicate HasItsSides(layers: seq<Layer>) {
    forall d: Dim, c: nat, s: nat {:trigger IsItsSide(layers, d, c, s)} :: IsItsSide(layers, d, c, s)
  }

  ghost predicate IsItsSide(layers: seq<Layer>, d: Dim, c: nat, s: nat) {
    1 < d <= |layers| && c < |layers[d - 1].cells| && s <= d ==>
      var layer := layers[d - 1];
      && |layer.cells[c]| == d + 1 && c < |layer.cellSides| && s < |layer.cellSides[c]|
      && layer.cellSides[c][s] < |layers[d - 2].cells|
      && VertSet(layers[d - 2].cells[layer.cellSides[c][s]]) == VertSet(SideUse(d, layer.cells[c], s))
  }

  /** No two entities of one dimension have the same vertices. */
  ghost predicate HasNoTwins(layers: seq<Layer>) {
    forall d: Dim, b: nat, c: nat {:trigger AreTwins(layers, d, b, c)} :: AreTwins(layers, d, b, c) ==> b == c
  }

  ghost predicate AreTwins(layers: seq<Layer>, d: Dim, b: nat, c: nat) {
    && d <= |layers| && b < |layers[d - 1].cells| && c < |layers[d - 1].cells|
    && VertSet(layers[d - 1].cells[b]) == VertSet(layers[d - 1].cells[c])
  }

  /** The cell has both ends of rail `k`. */
  ghost predicate HasRail(edges: seq<Verts>, rails: RailSet, k: nat, cell: Verts)
    requires rails.Valid(edges) && k < |rails.edges|
  {
    edges[rails.edges[k]][0] in cell && edges[rails.edges[k]][1] in cell
  }

  /** The cell has the rail, and the other entity all its vertices but the one that is collapsed onto. */
  ghost predicate LeavesBehind(edges: seq<Verts>, rails: RailSet, k: nat, cell: Verts, side: Verts)
    requires rails.Valid(edges) && k < |rails.edges|
  {
    HasRail(edges, rails, k, cell) && VertSet(side) == VertSet(cell) - {Onto(edges, rails, k)}
  }

  ghost predicate DiesBy(layers: seq<Layer>, edges: seq<Verts>, rails: RailSet, d: Dim, c: nat, k: nat)
    requires rails.Valid(edges) && k < |rails.edges| && d <= |layers| && c < |layers[d - 1].cells|
  {
    var cell := layers[d - 1].cells[c];
    || HasRail(edges, rails, k, cell)
    || (d < |layers|
        && exists b :: 0 <= b < |layers[d].cells| && LeavesBehind(edges, rails, k, layers[d].cells[b], cell))
  }

  ghost predicate IsDoomed(layers: seq<Layer>, edges: seq<Verts>, rails: RailSet, d: Dim, c: nat)
    requires rails.Valid(edges) && d <= |layers| && c < |layers[d - 1].cells|
  {
    exists k: nat :: k < |rails.edges| && DiesBy(layers, edges, rails, d, c, k)
  }

  /** The marks are those of the entities that have a rail or are left behind by one that has. */
  ghost predicate MarksByVerts(layers: seq<Layer>, edges: seq<Verts>, rails: RailSet, dead: seq<seq<bool>>, d: Dim)
    requires rails.Valid(edges)
  {
    && d <= |layers| && d <= |dead| && |dead[d - 1]| == |layers[d - 1].cells|
    && var marks := dead[d - 1];
       forall c: nat :: c < |marks| ==> (marks[c] <==> IsDoomed(layers, edges, rails, d, c))
  }

  // ----- edges and sides by their vertices -----

  lemma EdgeIs(nv: nat, edges: seq<Verts>, layers: seq<Layer>, e: nat)
    requires IsComplex(nv, edges, layers) && e < |edges|
    ensures |edges[e]| == 2 && edges[e] == [edges[e][0], edges[e][1]] && edges[e][0] != edges[e][1]
  {
  }

  lemma SameEndsSameEdge(nv: nat, edges: seq<Verts>, layers: seq<Layer>, d: nat, e: nat)
    requires IsComplex(nv, edges, layers) && d < |edges| && e < |edges|
    requires edges[d] == edges[e] || (|edges[e]| == 2 && edges[d] == [edges[e][1], edges[e][0]])
    ensures d == e
  {
    EdgeIs(nv, edges, layers, d);
    EdgeIs(nv, edges, layers, e);
    SameEdge(edges[d], edges[e]);
    SameEdge(edges[e], edges[d]);
  }

  /** A cell has an edge exactly if it has both its vertices. */
  lemma EdgeByEnds(nv: nat, edges: seq<Verts>, layers: seq<Layer>, d: Dim, e: nat, c: nat)
    requires IsComplex(nv, edges, layers) && 1 < d <= |layers| && e < |edges| && c < |layers[d - 1].cells|
    ensures |edges[e]| == 2
    ensures CellHasEdge(layers[d - 1], d, e, c) <==>
      edges[e][0] in layers[d - 1].cells[c] && edges[e][1] in layers[d - 1].cells[c]
  {
    hide CellHasEdge, IsEdgeOf;
    LayerIsValid(nv, edges, layers, d);
    EdgeIs(nv, edges, layers, e);
    var layer, nsides := layers[d - 1], NSides(edges, layers, d);
    var cell := layer.cells[c];
    if CellHasEdge(layer, d, e, c) {
      EdgeIsInCell(layer, d, nv, edges, nsides, e, c);
    }
    if edges[e][0] in cell && edges[e][1] in cell {
      var i: nat :| i < |cell| && cell[i] == edges[e][0];
      var j: nat :| j < |cell| && cell[j] == edges[e][1];
      var e' := EdgeOfCell(layer, d, nv, edges, nsides, c, i, j);
      SameEndsSameEdge(nv, edges, layers, e', e);
    }
  }

  lemma EdgeIsInCell(layer: Layer, d: Dim, nv: nat, edges: seq<Verts>, nsides: nat, e: nat, c: nat)
    requires layer.Valid(d, nv, edges, nsides) && d > 1 && CellHasEdge(layer, d, e, c) && e < |edges| && |edges[e]| == 2
    ensures c < |layer.cells| && edges[e][0] in layer.cells[c] && edges[e][1] in layer.cells[c]
  {
    var slot: nat :| IsEdgeOf(layer, d, e, c, slot);
    assert layer.HasEdgeAt(d, edges, slot);
    EdgeVertsExist(d, slot % NEdges(d));
    EdgeListIs(edges[e], layer.down.codes[slot], EdgeUse(d, layer.cells[c], slot % NEdges(d)));
  }

  lemma CellsAreDistinct(nv: nat, edges: seq<Verts>, layers: seq<Layer>, d: Dim, c: nat)
    requires IsComplex(nv, edges, layers) && d <= |layers| && c < |layers[d - 1].cells|
    ensures |layers[d - 1].cells[c]| == d + 1 && AreDistinct(layers[d - 1].cells[c])
    ensures var cell := layers[d - 1].cells[c]; forall v :: v in cell ==> 0 <= v < nv
  {
    LayerIsValid(nv, edges, layers, d);
  }

  /** The side opposite to a vertex, by vertices. */
  lemma OppositeByVerts(nv: nat, edges: seq<Verts>, layers: seq<Layer>, d: Dim, c: nat, pos: nat)
    requires IsComplex(nv, edges, layers) && HasItsSides(layers) && 1 < d <= |layers| && c < |layers[d - 1].cells|
    requires pos <= d
    ensures var layer := layers[d - 1];
      && c < |layer.cellSides| && OppositeSide(d, pos) < |layer.cellSides[c]| && pos < |layer.cells[c]|
      && layer.cellSides[c][OppositeSide(d, pos)] < |layers[d - 2].cells|
      && VertSet(layers[d - 2].cells[layer.cellSides[c][OppositeSide(d, pos)]])
        == VertSet(layer.cells[c]) - {layer.cells[c][pos]}
  {
    hide IsComplex, OppositeSide, SideUse;
    CellsAreDistinct(nv, edges, layers, d, c);
    var cell := layers[d - 1].cells[c];
    OppositeIsOpposite(d, cell, pos, 0);
    assert IsItsSide(layers, d, c, OppositeSide(d, pos));
    forall v
      ensures v in VertSet(SideUse(d, cell, OppositeSide(d, pos))) <==> v in VertSet(cell) - {cell[pos]}
    {
      OppositeIsOpposite(d, cell, pos, v);
    }
  }

  /** A side dies exactly if some cell with a rail leaves it behind. */
  lemma SideByVerts(nv: nat, edges: seq<Verts>, layers: seq<Layer>, rails: RailSet, d: Dim, s: nat, k: nat)
    requires IsComplex(nv, edges, layers) && HasItsSides(layers) && HasNoTwins(layers) && rails.Valid(edges)
    requires 1 < d <= |layers| && s < |layers[d - 2].cells| && k < |rails.edges|
    ensures IsOppositeTo(layers[d - 1], d, edges, rails.edges[k], Onto(edges, rails, k), s) <==>
      var cells, side := layers[d - 1].cells, layers[d - 2].cells[s];
      exists b :: 0 <= b < |cells| && LeavesBehind(edges, rails, k, cells[b], side)
  {
    hide IsComplex, HasItsSides, HasNoTwins, OppositeSide, CellHasEdge;
    var layer, e, onto := layers[d - 1], rails.edges[k], Onto(edges, rails, k);
    if c: nat, pos: nat :| IsOppositeIn(layer, d, edges, e, onto, s, c, pos) {
      EdgeByEnds(nv, edges, layers, d, e, c);
      OppositeByVerts(nv, edges, layers, d, c, pos);
      assert LeavesBehind(edges, rails, k, layer.cells[c], layers[d - 2].cells[s]);
    }
    if b: nat :| b < |layer.cells| && LeavesBehind(edges, rails, k, layer.cells[b], layers[d - 2].cells[s]) {
      EdgeByEnds(nv, edges, layers, d, e, b);
      CellsAreDistinct(nv, edges, layers, d, b);
      var pos: nat :| pos < |layer.cells[b]| && layer.cells[b][pos] == onto;
      OppositeByVerts(nv, edges, layers, d, b, pos);
      TwinsAreOne(layers, d - 1, layer.cellSides[b][OppositeSide(d, pos)], s);
      assert IsOppositeIn(layer, d, edges, e, onto, s, b, pos);
    }
  }

  lemma TwinsAreOne(layers: seq<Layer>, d: Dim, b: nat, c: nat)
    requires HasNoTwins(layers) && d <= |layers| && b < |layers[d - 1].cells| && c < |layers[d - 1].cells|
    requires VertSet(layers[d - 1].cells[b]) == VertSet(layers[d - 1].cells[c])
    ensures b == c
  {
    assert AreTwins(layers, d, b, c);
  }

  lemma RailOfEdge(nv: nat, edges: seq<Verts>, layers: seq<Layer>, rails: RailSet, c: nat, k: nat)
    requires IsComplex(nv, edges, layers) && rails.Valid(edges) && c < |edges| && k < |rails.edges|
    ensures HasRail(edges, rails, k, edges[c]) <==> c == rails.edges[k]
  {
    EdgeIs(nv, edges, layers, c);
    EdgeIs(nv, edges, layers, rails.edges[k]);
    if HasRail(edges, rails, k, edges[c]) {
      SameEndsSameEdge(nv, edges, layers, rails.edges[k], c);
    }
  }

  /** What the marks mean by vertices. */
  lemma DiesByVerts(nv: nat, edges: seq<Verts>, layers: seq<Layer>, rails: RailSet, d: Dim, c: nat)
    requires IsComplex(nv, edges, layers) && HasItsSides(layers) && HasNoTwins(layers) && rails.Valid(edges)
    requires d <= |layers| && c < |layers[d - 1].cells|
    ensures Dies(layers, edges, rails, d, c) <==> IsDoomed(layers, edges, rails, d, c)
  {
    hide IsComplex, HasItsSides, HasNoTwins, CellHasEdge, IsOppositeTo, HasRail, LeavesBehind;
    CellsOfComplex(nv, edges, layers);
    forall k: nat | k < |rails.edges|
      ensures DiesBy(layers, edges, rails, d, c, k) <==>
        || (if d == 1 then c == rails.edges[k] else CellHasEdge(layers[d - 1], d, rails.edges[k], c))
        || (d < |layers| && IsOppositeTo(layers[d], d + 1, edges, rails.edges[k], Onto(edges, rails, k), c))
    {
      if d == 1 {
        RailOfEdge(nv, edges, layers, rails, c, k);
      } else {
        RailByEnds(nv, edges, layers, rails, d, c, k);
      }
      if d < |layers| {
        SideByVerts(nv, edges, layers, rails, d + 1, c, k);
      }
    }
  }

  lemma CellsOfComplex(nv: nat, edges: seq<Verts>, layers: seq<Layer>)
    requires IsComplex(nv, edges, layers)
    ensures 2 <= |layers| <= 3 && layers[0].cells == edges
  {
  }

  lemma RailByEnds(nv: nat, edges: seq<Verts>, layers: seq<Layer>, rails: RailSet, d: Dim, c: nat, k: nat)
    requires IsComplex(nv, edges, layers) && rails.Valid(edges) && 1 < d <= |layers| && c < |layers[d - 1].cells|
    requires k < |rails.edges|
    ensures HasRail(edges, rails, k, layers[d - 1].cells[c]) <==> CellHasEdge(layers[d - 1], d, rails.edges[k], c)
  {
    EdgeByEnds(nv, edges, layers, d, rails.edges[k], c);
  }

  /** In a mesh whose cells have their sides, the marks say by vertices what dies. */
  lemma MarksAreByVerts(
      nv: nat, edges: seq<Verts>, layers: seq<Layer>, rails: RailSet, dead: seq<seq<bool>>, d: Dim)
    requires IsComplex(nv, edges, layers) && HasItsSides(layers) && HasNoTwins(layers) && rails.Valid(edges)
    requires d <= |layers| && HasMarks(layers, dead) && MarksTheDead(layers, edges, rails, dead, d)
    ensures MarksByVerts(layers, edges, rails, dead, d)
  {
    hide IsComplex, HasItsSides, HasNoTwins, Dies, IsDoomed;
    var marks := dead[d - 1];
    forall c: nat | c < |marks|
      ensures marks[c] <==> IsDoomed(layers, edges, rails, d, c)
    {
      DiesByVerts(nv, edges, layers, rails, d, c);
    }
  }

  // ----- whether a product is there already -----

  /** The list of new numbers of a list of vertices, none of which is a key. */
  ghost predicate IsRenumbered(keys: seq<nat>, old2new: seq<int>, from: Verts, list: Verts) {
    && |from| == |list|
    && forall i :: 0 <= i < |from| ==>
      0 <= from[i] < |old2new| && !IsKey(keys, from[i]) && list[i] == old2new[from[i]]
  }

  lemma SubsetAfterRenumbering(
      nv: nat, keys: seq<nat>, old2new: seq<int>, a: Verts, a': Verts, b: Verts, b': Verts)
    requires IsRenumbering(nv, keys, old2new) && IsRenumbered(keys, old2new, a, a')
    requires IsRenumbered(keys, old2new, b, b')
    ensures VertSet(a') <= VertSet(b') <==> VertSet(a) <= VertSet(b)
  {
    if VertSet(a) <= VertSet(b) {
      forall v | v in VertSet(a')
        ensures v in VertSet(b')
      {
        var i: nat :| i < |a'| && a'[i] == v;
        assert a[i] in VertSet(b);
        var j: nat :| j < |b| && b[j] == a[i];
        assert b'[j] == v;
      }
    }
    if VertSet(a') <= VertSet(b') {
      forall v | v in VertSet(a)
        ensures v in VertSet(b)
      {
        var i: nat :| i < |a| && a[i] == v;
        assert a'[i] in VertSet(b');
        var j: nat :| j < |b'| && b'[j] == a'[i];
        var u: nat, w: nat := a[i], b[j];
        assert old2new[u] == old2new[w];
      }
    }
  }

  lemma SameAfterRenumbering(
      nv: nat, keys: seq<nat>, old2new: seq<int>, a: Verts, a': Verts, b: Verts, b': Verts)
    requires IsRenumbering(nv, keys, old2new) && IsRenumbered(keys, old2new, a, a')
    requires IsRenumbered(keys, old2new, b, b')
    ensures VertSet(a') == VertSet(b') <==> VertSet(a) == VertSet(b)
  {
    SubsetAfterRenumbering(nv, keys, old2new, a, a', b, b');
    SubsetAfterRenumbering(nv, keys, old2new, b, b', a, a');
  }

  /** An entity that stays is live and has no key. */
  ghost predicate Stays(layers: seq<Layer>, keys: seq<nat>, dead: seq<seq<bool>>, d: Dim, b: nat) {
    && d <= |layers| && d <= |dead| && b < |layers[d - 1].cells| && b < |dead[d - 1]| && !dead[d - 1][b]
    && var cell := layers[d - 1].cells[b]; forall i :: 0 <= i < |cell| ==> !IsKey(keys, cell[i])
  }

  /** The product has the new vertices of an entity that stays. */
  ghost predicate IsThere(
      layers: seq<Layer>, keys: seq<nat>, old2new: seq<int>, dead: seq<seq<bool>>, d: Dim, prod: Verts)
  {
    exists b: nat, verts :: IsThereAs(layers, keys, old2new, dead, d, prod, b, verts)
  }

  ghost predicate IsThereAs(layers: seq<Layer>, keys: seq<nat>, old2new: seq<int>, dead: seq<seq<bool>>, d: Dim,
      prod: Verts, b: nat, verts: Verts)
  {
    Stays(layers, keys, dead, d, b) && IsRenumbered(keys, old2new, layers[d - 1].cells[b], verts)
    && VertSet(verts) == VertSet(prod)
  }

  /** Entity `b` has the vertices of `c`, but for `onto` in the place of the key. */
  ghost predicate IsLink(layers: seq<Layer>, d: Dim, key: int, onto: int, c: nat, b: nat) {
    && d <= |layers| && c < |layers[d - 1].cells| && b < |layers[d - 1].cells|
    && key in layers[d - 1].cells[c] && onto !in layers[d - 1].cells[c]
    && VertSet(layers[d - 1].cells[b]) == VertSet(layers[d - 1].cells[c]) - {key} + {onto}
  }

  ghost predicate HasFilling(layers: seq<Layer>, d: Dim, onto: int, c: nat) {
    && d < |layers| && c < |layers[d - 1].cells|
    && exists a :: 0 <= a < |layers[d].cells| && VertSet(layers[d].cells[a]) == VertSet(layers[d - 1].cells[c]) + {onto}
  }

  /** The link condition of an edge: where two entities differ only by its ends, there is an entity with both. */
  ghost predicate LinkHolds(layers: seq<Layer>, d: Dim, key: int, onto: int) {
    forall c: nat, b: nat {:trigger IsLink(layers, d, key, onto, c, b)} ::
      IsLink(layers, d, key, onto, c, b) ==> HasFilling(layers, d, onto, c)
  }

  ghost predicate AreDifferent(keys: seq<nat>) {
    forall i, j :: 0 <= i < j < |keys| ==> keys[i] != keys[j]
  }

  /** What a collapse is given and has marked. */
  ghost predicate IsMarkedComplex(
      nv: nat, edges: seq<Verts>, layers: seq<Layer>, keys: seq<nat>, rails: RailSet, dead: seq<seq<bool>>, d: Dim)
  {
    && IsComplex(nv, edges, layers) && HasNoTwins(layers) && AreKeys(edges, keys, rails) && AreDifferent(keys)
    && d <= |layers| && HasMarks(layers, dead) && MarksTheDead(layers, edges, rails, dead, d)
    && MarksByVerts(layers, edges, rails, dead, d)
  }

  lemma MarkedHas(
      nv: nat, edges: seq<Verts>, layers: seq<Layer>, keys: seq<nat>, rails: RailSet, dead: seq<seq<bool>>, d: Dim)
    requires IsMarkedComplex(nv, edges, layers, keys, rails, dead, d)
    ensures IsComplex(nv, edges, layers) && HasNoTwins(layers) && AreKeys(edges, keys, rails) && AreDifferent(keys)
    ensures rails.Valid(edges) && |rails.edges| == |keys| && d <= |layers| && d <= |dead|
    ensures |dead[d - 1]| == |layers[d - 1].cells|
  {
  }

  /** A rail has its key and what it is collapsed onto for its ends. */
  lemma EndsOfRail(edges: seq<Verts>, keys: seq<nat>, rails: RailSet, k: nat, cell: Verts)
    requires AreKeys(edges, keys, rails) && k < |keys|
    ensures HasRail(edges, rails, k, cell) <==> keys[k] in cell && Onto(edges, rails, k) in cell
    ensures keys[k] != Onto(edges, rails, k) && !IsKey(keys, Onto(edges, rails, k)) && IsKey(keys, keys[k])
  {
    OntoIsNoKey(edges, keys, rails, k);
    assert IsKey(keys, keys[k]);
  }

  /** An entity with a key has no other key. */
  lemma OneKeyIn(nv: nat, edges: seq<Verts>, layers: seq<Layer>, keys: seq<nat>, rails: RailSet, d: Dim,
      c: nat, k: nat, v: int)
    requires IsComplex(nv, edges, layers) && AreKeys(edges, keys, rails) && k < |keys| && d <= |layers|
    requires c < |layers[d - 1].cells| && keys[k] in layers[d - 1].cells[c] && v in layers[d - 1].cells[c]
    requires v != keys[k]
    ensures !IsKey(keys, v)
  {
    CellsAreDistinct(nv, edges, layers, d, c);
    var cell := layers[d - 1].cells[c];
    var i: nat :| i < |cell| && cell[i] == keys[k];
    var j: nat :| j < |cell| && cell[j] == v;
    OthersAreNoKeys(nv, edges, layers, keys, rails, d, k, c, i, j);
  }

  /** What a rail kills has its key, and is filled by an entity with both ends unless it has both. */
  lemma KilledHasKey(
      layers: seq<Layer>, edges: seq<Verts>, keys: seq<nat>, rails: RailSet, d: Dim, c: nat, j: nat)
    requires AreKeys(edges, keys, rails) && j < |keys| && d <= |layers| && c < |layers[d - 1].cells|
    requires DiesBy(layers, edges, rails, d, c, j)
    ensures keys[j] in layers[d - 1].cells[c]
    ensures Onto(edges, rails, j) in layers[d - 1].cells[c] || HasFilling(layers, d, Onto(edges, rails, j), c)
  {
    var cell, onto := layers[d - 1].cells[c], Onto(edges, rails, j);
    EndsOfRail(edges, keys, rails, j, cell);
    if !HasRail(edges, rails, j, cell) {
      var b: nat :| b < |layers[d].cells| && LeavesBehind(edges, rails, j, layers[d].cells[b], cell);
      var whole := layers[d].cells[b];
      EndsOfRail(edges, keys, rails, j, whole);
      assert keys[j] in VertSet(whole) - {onto};
      assert VertSet(whole) == VertSet(cell) + {onto};
    }
  }

  lemma FilledDies(
      layers: seq<Layer>, edges: seq<Verts>, keys: seq<nat>, rails: RailSet, d: Dim, c: nat, k: nat)
    requires AreKeys(edges, keys, rails) && k < |keys| && d <= |layers| && c < |layers[d - 1].cells|
    requires keys[k] in layers[d - 1].cells[c] && Onto(edges, rails, k) !in layers[d - 1].cells[c]
    requires HasFilling(layers, d, Onto(edges, rails, k), c)
    ensures DiesBy(layers, edges, rails, d, c, k)
  {
    var cell, onto := layers[d - 1].cells[c], Onto(edges, rails, k);
    var a: nat :| a < |layers[d].cells| && VertSet(layers[d].cells[a]) == VertSet(cell) + {onto};
    var whole := layers[d].cells[a];
    assert keys[k] in VertSet(whole) && onto in VertSet(whole);
    EndsOfRail(edges, keys, rails, k, whole);
    assert VertSet(cell) == VertSet(whole) - {onto};
    assert LeavesBehind(edges, rails, k, whole, cell);
  }

  /** An entity with a key, but without what it is collapsed onto, dies exactly if it is filled. */
  lemma DeadIsFilled(
      nv: nat, edges: seq<Verts>, layers: seq<Layer>, keys: seq<nat>, rails: RailSet, dead: seq<seq<bool>>, d: Dim,
      k: nat, c: nat)
    requires IsMarkedComplex(nv, edges, layers, keys, rails, dead, d) && k < |keys|
    requires rails.Valid(edges) && |rails.edges| == |keys| && c < |layers[d - 1].cells| && c < |dead[d - 1]|
    requires keys[k] in layers[d - 1].cells[c] && Onto(edges, rails, k) !in layers[d - 1].cells[c]
    ensures dead[d - 1][c] <==> HasFilling(layers, d, Onto(edges, rails, k), c)
  {
    MarkedHas(nv, edges, layers, keys, rails, dead, d);
    var cell, onto := layers[d - 1].cells[c], Onto(edges, rails, k);
    EndsOfRail(edges, keys, rails, k, cell);
    assert dead[d - 1][c] <==> IsDoomed(layers, edges, rails, d, c);
    hide IsMarkedComplex, IsComplex, HasRail, AreKeys;
    if dead[d - 1][c] {
      var j: nat :| j < |rails.edges| && DiesBy(layers, edges, rails, d, c, j);
      KilledHasKey(layers, edges, keys, rails, d, c, j);
      EndsOfRail(edges, keys, rails, j, cell);
      if keys[j] != keys[k] {
        OneKeyIn(nv, edges, layers, keys, rails, d, c, k, keys[j]);
      }
    }
    if HasFilling(layers, d, onto, c) {
      FilledDies(layers, edges, keys, rails, d, c, k);
    }
  }

  /** What has the vertices of an entity with a key, but for another in its place, is no key's and is live. */
  lemma LinkStays(
      nv: nat, edges: seq<Verts>, layers: seq<Layer>, keys: seq<nat>, rails: RailSet, dead: seq<seq<bool>>, d: Dim,
      k: nat, c: nat, b: nat)
    requires IsMarkedComplex(nv, edges, layers, keys, rails, dead, d) && k < |keys|
    requires rails.Valid(edges) && |rails.edges| == |keys|
    requires IsLink(layers, d, keys[k], Onto(edges, rails, k), c, b)
    ensures Stays(layers, keys, dead, d, b)
  {
    MarkedHas(nv, edges, layers, keys, rails, dead, d);
    var cell, onto := layers[d - 1].cells[b], Onto(edges, rails, k);
    EndsOfRail(edges, keys, rails, k, cell);
    assert dead[d - 1][b] <==> IsDoomed(layers, edges, rails, d, b);
    hide IsMarkedComplex, IsComplex, HasRail, AreKeys;
    forall i | 0 <= i < |cell|
      ensures !IsKey(keys, cell[i])
    {
      assert cell[i] in VertSet(cell);
      if cell[i] != onto {
        OneKeyIn(nv, edges, layers, keys, rails, d, c, k, cell[i]);
      }
    }
    if dead[d - 1][b] {
      var j: nat :| j < |rails.edges| && DiesBy(layers, edges, rails, d, b, j);
      KilledHasKey(layers, edges, keys, rails, d, b, j);
      EndsOfRail(edges, keys, rails, j, cell);
    }
  }

  lemma VertsAfter(cell: Verts, which: nat, onto: int)
    requires which < |cell| && AreDistinct(cell)
    ensures VertSet(OldVerts(cell, which, onto)) == VertSet(cell) - {cell[which]} + {onto}
  {
    var after := OldVerts(cell, which, onto);
    forall v
      ensures v in VertSet(after) <==> v in VertSet(cell) - {cell[which]} + {onto}
    {
      if v in after {
        var i: nat :| i < |after| && after[i] == v;
        assert i != which ==> cell[i] == v;
      }
      if v in VertSet(cell) - {cell[which]} {
        var i: nat :| i < |cell| && cell[i] == v;
        assert after[i] == v;
      }
      assert after[which] == onto;
    }
  }

  /** The old vertices of a product, and its new ones. */
  lemma ProductIs(
      nv: nat, edges: seq<Verts>, layers: seq<Layer>, keys: seq<nat>, rails: RailSet, old2new: seq<int>,
      dead: seq<seq<bool>>, d: Dim, k: nat, dom: (nat, nat), prod: Verts)
    returns (from: Verts)
    requires IsMarkedComplex(nv, edges, layers, keys, rails, dead, d) && k < |keys|
    requires rails.Valid(edges) && |rails.edges| == |keys|
    requires IsDomain(layers[d - 1], d, keys[k], dead[d - 1], dom)
    requires IsProduct(layers[d - 1], d, nv, keys, old2new, Onto(edges, rails, k), dom, prod)
    ensures IsRenumbered(keys, old2new, from, prod)
    ensures dom.0 < |layers[d - 1].cells| && dom.0 < |dead[d - 1]| && !dead[d - 1][dom.0]
    ensures keys[k] in layers[d - 1].cells[dom.0] && Onto(edges, rails, k) !in layers[d - 1].cells[dom.0]
    ensures VertSet(from) == VertSet(layers[d - 1].cells[dom.0]) - {keys[k]} + {Onto(edges, rails, k)}
  {
    MarkedHas(nv, edges, layers, keys, rails, dead, d);
    DomainIsSound(nv, edges, layers, keys, rails, d, k, dead, dom, old2new);
    var cell := layers[d - 1].cells[dom.0];
    from := OldVerts(cell, dom.1, Onto(edges, rails, k));
    VertsAfter(cell, dom.1, Onto(edges, rails, k));
  }

  /** No two products of a key are the same entity. */
  lemma ProductsDiffer(
      nv: nat, edges: seq<Verts>, layers: seq<Layer>, keys: seq<nat>, rails: RailSet, old2new: seq<int>,
      dead: seq<seq<bool>>, d: Dim, k: nat, doms: seq<(nat, nat)>, prods: seq<Verts>, x: nat, y: nat)
    requires IsMarkedComplex(nv, edges, layers, keys, rails, dead, d) && k < |keys|
    requires rails.Valid(edges) && |rails.edges| == |keys| && IsRenumbering(nv, keys, old2new)
    requires AreDomains(layers[d - 1], d, keys[k], dead[d - 1], doms)
    requires AreProducts(layers[d - 1], d, nv, keys, old2new, Onto(edges, rails, k), doms, prods)
    requires x < |prods| && y < |prods| && VertSet(prods[x]) == VertSet(prods[y])
    ensures x == y
  {
    MarkedHas(nv, edges, layers, keys, rails, dead, d);
    var from := ProductIs(nv, edges, layers, keys, rails, old2new, dead, d, k, doms[x], prods[x]);
    var from' := ProductIs(nv, edges, layers, keys, rails, old2new, dead, d, k, doms[y], prods[y]);
    SameAfterRenumbering(nv, keys, old2new, from, prods[x], from', prods[y]);
    var key, onto := keys[k], Onto(edges, rails, k);
    var a, b := VertSet(layers[d - 1].cells[doms[x].0]), VertSet(layers[d - 1].cells[doms[y].0]);
    assert a == (a - {key} + {onto}) - {onto} + {key} && b == (b - {key} + {onto}) - {onto} + {key};
    TwinsAreOne(layers, d, doms[x].0, doms[y].0);
  }

  lemma ThereIsLink(
      nv: nat, edges: seq<Verts>, layers: seq<Layer>, keys: seq<nat>, rails: RailSet, old2new: seq<int>,
      dead: seq<seq<bool>>, d: Dim, k: nat, dom: (nat, nat), prod: Verts)
    requires IsMarkedComplex(nv, edges, layers, keys, rails, dead, d) && k < |keys|
    requires rails.Valid(edges) && |rails.edges| == |keys| && IsRenumbering(nv, keys, old2new)
    requires IsDomain(layers[d - 1], d, keys[k], dead[d - 1], dom)
    requires IsProduct(layers[d - 1], d, nv, keys, old2new, Onto(edges, rails, k), dom, prod)
    requires IsThere(layers, keys, old2new, dead, d, prod)
    ensures !LinkHolds(layers, d, keys[k], Onto(edges, rails, k))
  {
    MarkedHas(nv, edges, layers, keys, rails, dead, d);
    var from := ProductIs(nv, edges, layers, keys, rails, old2new, dead, d, k, dom, prod);
    var b: nat, verts: Verts :| IsThereAs(layers, keys, old2new, dead, d, prod, b, verts);
    SameAfterRenumbering(nv, keys, old2new, from, prod, layers[d - 1].cells[b], verts);
    assert IsLink(layers, d, keys[k], Onto(edges, rails, k), dom.0, b);
    DeadIsFilled(nv, edges, layers, keys, rails, dead, d, k, dom.0);
  }

  lemma Renumber(nv: nat, edges: seq<Verts>, layers: seq<Layer>, keys: seq<nat>, old2new: seq<int>,
      dead: seq<seq<bool>>, d: Dim, b: nat)
    returns (verts: Verts)
    requires IsComplex(nv, edges, layers) && IsRenumbering(nv, keys, old2new) && Stays(layers, keys, dead, d, b)
    ensures IsRenumbered(keys, old2new, layers[d - 1].cells[b], verts)
  {
    CellsAreDistinct(nv, edges, layers, d, b);
    hide IsComplex, IsKey;
    var cell := layers[d - 1].cells[b];
    assert forall j :: 0 <= j < |cell| ==> cell[j] in cell;
    verts := seq(|cell|, j requires 0 <= j < |cell| => old2new[cell[j]]);
  }

  lemma LinkIsThere(
      nv: nat, edges: seq<Verts>, layers: seq<Layer>, keys: seq<nat>, rails: RailSet, old2new: seq<int>,
      dead: seq<seq<bool>>, d: Dim, k: nat, doms: seq<(nat, nat)>, prods: seq<Verts>, c: nat, b: nat)
    returns (x: nat)
    requires IsMarkedComplex(nv, edges, layers, keys, rails, dead, d) && k < |keys|
    requires rails.Valid(edges) && |rails.edges| == |keys| && IsRenumbering(nv, keys, old2new)
    requires AreDomains(layers[d - 1], d, keys[k], dead[d - 1], doms)
    requires AreProducts(layers[d - 1], d, nv, keys, old2new, Onto(edges, rails, k), doms, prods)
    requires IsLink(layers, d, keys[k], Onto(edges, rails, k), c, b) && !HasFilling(layers, d, Onto(edges, rails, k), c)
    ensures x < |prods| && IsThere(layers, keys, old2new, dead, d, prods[x])
  {
    hide IsComplex, AreKeys, Stays, IsRenumbering, IsRenumbered, HasFilling, MarksByVerts, HasNoTwins;
    MarkedHas(nv, edges, layers, keys, rails, dead, d);
    DeadIsFilled(nv, edges, layers, keys, rails, dead, d, k, c);
    LinkStays(nv, edges, layers, keys, rails, dead, d, k, c, b);
    assert HasVert(layers[d - 1], c, keys[k]);
    var i :| 0 <= i < |doms| && doms[i].0 == c;
    x := i;
    var from := ProductIs(nv, edges, layers, keys, rails, old2new, dead, d, k, doms[x], prods[x]);
    var verts := Renumber(nv, edges, layers, keys, old2new, dead, d, b);
    SameAfterRenumbering(nv, keys, old2new, from, prods[x], layers[d - 1].cells[b], verts);
    assert IsThereAs(layers, keys, old2new, dead, d, prods[x], b, verts);
  }

  /** No product of a key is an entity that stays, exactly if the link condition holds. */
  lemma ProductsAreNew(
      nv: nat, edges: seq<Verts>, layers: seq<Layer>, keys: seq<nat>, rails: RailSet, old2new: seq<int>,
      dead: seq<seq<bool>>, d: Dim, k: nat, doms: seq<(nat, nat)>, prods: seq<Verts>)
    requires IsMarkedComplex(nv, edges, layers, keys, rails, dead, d) && k < |keys|
    requires rails.Valid(edges) && |rails.edges| == |keys| && IsRenumbering(nv, keys, old2new)
    requires AreDomains(layers[d - 1], d, keys[k], dead[d - 1], doms)
    requires AreProducts(layers[d - 1], d, nv, keys, old2new, Onto(edges, rails, k), doms, prods)
    ensures (forall x :: 0 <= x < |prods| ==> !IsThere(layers, keys, old2new, dead, d, prods[x])) <==>
      LinkHolds(layers, d, keys[k], Onto(edges, rails, k))
  {
    hide IsMarkedComplex, IsThere, IsLink, HasFilling, IsRenumbering;
    var key, onto := keys[k], Onto(edges, rails, k);
    if x :| 0 <= x < |prods| && IsThere(layers, keys, old2new, dead, d, prods[x]) {
      ThereIsLink(nv, edges, layers, keys, rails, old2new, dead, d, k, doms[x], prods[x]);
    }
    if !LinkHolds(layers, d, key, onto) {
      var c: nat, b: nat :| IsLink(layers, d, key, onto, c, b) && !HasFilling(layers, d, onto, c);
      var x := LinkIsThere(nv, edges, layers, keys, rails, old2new, dead, d, k, doms, prods, c, b);
    }
  }

  /** The products of a key are different entities, and none is there already exactly if the link condition holds. */
  ghost predicate AreFresh(layers: seq<Layer>, edges: seq<Verts>, keys: seq<nat>, rails: RailSet, old2new: seq<int>,
      dead: seq<seq<bool>>, d: Dim, k: nat, prods: seq<Verts>)
    requires rails.Valid(edges) && k < |rails.edges| == |keys|
  {
    && (forall x: nat, y: nat :: x < y < |prods| ==> VertSet(prods[x]) != VertSet(prods[y]))
    && ((forall x :: 0 <= x < |prods| ==> !IsThere(layers, keys, old2new, dead, d, prods[x])) <==>
      LinkHolds(layers, d, keys[k], Onto(edges, rails, k)))
  }

  lemma ProductsAreFresh(
      nv: nat, edges: seq<Verts>, layers: seq<Layer>, keys: seq<nat>, rails: RailSet, old2new: seq<int>,
      dead: seq<seq<bool>>, d: Dim, k: nat, doms: seq<(nat, nat)>, prods: seq<Verts>)
    requires IsMarkedComplex(nv, edges, layers, keys, rails, dead, d) && k < |keys|
    requires rails.Valid(edges) && |rails.edges| == |keys| && IsRenumbering(nv, keys, old2new)
    requires AreDomains(layers[d - 1], d, keys[k], dead[d - 1], doms)
    requires AreProducts(layers[d - 1], d, nv, keys, old2new, Onto(edges, rails, k), doms, prods)
    ensures AreFresh(layers, edges, keys, rails, old2new, dead, d, k, prods)
  {
    hide IsMarkedComplex, IsThere, LinkHolds, IsRenumbering, AreDomains, AreProducts, VertSet;
    ProductsAreNew(nv, edges, layers, keys, rails, old2new, dead, d, k, doms, prods);
    forall x: nat, y: nat | x < y < |prods|
      ensures VertSet(prods[x]) != VertSet(prods[y])
    {
      if VertSet(prods[x]) == VertSet(prods[y]) {
        ProductsDiffer(nv, edges, layers, keys, rails, old2new, dead, d, k, doms, prods, x, y);
      }
    }
  }
}
